/**
 Saving a tree (internal/save): pruned children, chunks, listings, the score
 map, and the score that each node must end up with whatever the schedule.
 */
module Save {
  import opened Wrappers
  import opened Scores
  import opened Times
  import opened Listing
  import opened Trees
  import opened BlobStores

  datatype Env = Env(crypto: Crypto, wire: Wire, chunkSize: nat)

  ghost predicate EnvSound(env: Env) {
    CryptoSound(env.crypto) && WireSound(env.wire) && env.chunkSize >= 1
  }

  // ---- Finding the children of a directory ----

  function Join(parent: string, name: string): string {
    if parent == "" then name else parent + "/" + name
  }

  /** The path of a node, from the root. */
  function RelPath(t: Tree, p: Path): string
    decreases |p|
  {
    if p == [] || Subtree(t, p).None? then ""
    else Join(RelPath(t, p[..|p| - 1]), Subtree(t, p).value.info.name)
  }

  /** `excluded` says which relative paths match one of the exclusions. */
  function Kept(excluded: string -> bool, relPath: string, listing: seq<Tree>): seq<Tree> {
    if listing == [] then []
    else
      var last := |listing| - 1;
      Kept(excluded, relPath, listing[..last]) +
      if excluded(Join(relPath, listing[last].info.name)) then [] else [listing[last]]
  }

  predicate ShouldSkip(exclusions: seq<string -> bool>, relPath: string) {
    exists i :: 0 <= i < |exclusions| && exclusions[i](relPath)
  }

  method ShouldSkipLoop(exclusions: seq<string -> bool>, relPath: string) returns (skip: bool)
    ensures skip == ShouldSkip(exclusions, relPath)
  {
    for i := 0 to |exclusions|
      invariant forall j :: 0 <= j < i ==> !exclusions[j](relPath)
    {
      if exclusions[i](relPath) {
        return true;
      }
    }
    return false;
  }

  predicate AllUsable(unusable: Tree -> bool, entries: seq<Tree>) {
    forall t :: t in entries ==> !unusable(t)
  }

  /**
   `listing` is what reading the directory gives, if it can be read; `unusable`
   says which entries are symlinks that cannot be read or cannot be converted.
   Only entries that are not excluded are looked at.
   */
  method FindDependencies(exclusions: seq<string -> bool>, relPath: string, info: FileInfo,
                          listing: Option<seq<Tree>>, unusable: Tree -> bool)
    returns (children: Option<seq<Tree>>)
    ensures info.typ != TYPE_DIRECTORY ==> children == Some([])
    ensures info.typ == TYPE_DIRECTORY ==>
      && (children.Some? ==> listing.Some? && children.value == Kept(p => ShouldSkip(exclusions, p), relPath, listing.value))
      && (children.Some? <==> listing.Some? && AllUsable(unusable, Kept(p => ShouldSkip(exclusions, p), relPath, listing.value)))
  {
    if info.typ != TYPE_DIRECTORY {
      return Some([]);
    }
    if listing.None? {
      return None;
    }
    var entries := listing.value;
    var nodes: seq<Tree> := [];
    ghost var excluded := p => ShouldSkip(exclusions, p);
    for i := 0 to |entries|
      invariant nodes == Kept(excluded, relPath, entries[..i])
      invariant AllUsable(unusable, nodes)
    {
      assert entries[..i + 1][..i] == entries[..i];
      var skip := ShouldSkipLoop(exclusions, Join(relPath, entries[i].info.name));
      if !skip {
        if unusable(entries[i]) {
          KeptEarlier(excluded, relPath, entries, i);
          return None;
        }
        nodes := nodes + [entries[i]];
      }
    }
    assert entries[..|entries|] == entries;
    return Some(nodes);
  }

  lemma {:induction false} KeptEarlier(excluded: string -> bool, relPath: string, listing: seq<Tree>, i: nat)
    requires i < |listing| && !excluded(Join(relPath, listing[i].info.name))
    ensures listing[i] in Kept(excluded, relPath, listing)
  {
    if i < |listing| - 1 {
      KeptEarlier(excluded, relPath, listing[..|listing| - 1], i);
    }
  }

  /** The tree that is saved: the excluded paths removed, with all below them. */
  function Pruned(excluded: string -> bool, relPath: string, t: Tree): Tree
    decreases t, 1
  {
    if t.info.typ == TYPE_DIRECTORY
    then t.(children := PrunedAll(excluded, relPath, t.children))
    else t.(children := [])
  }

  function PrunedAll(excluded: string -> bool, relPath: string, ts: seq<Tree>): seq<Tree>
    decreases ts, 0
  {
    if ts == [] then []
    else
      var last := |ts| - 1;
      var path := Join(relPath, ts[last].info.name);
      PrunedAll(excluded, relPath, ts[..last]) +
      if excluded(path) then [] else [Pruned(excluded, path, ts[last])]
  }

  /** The pruned tree has below each directory what FindDependencies finds there. */
  lemma {:induction false} PrunedChildren(excluded: string -> bool, relPath: string, ts: seq<Tree>)
    ensures var kept, pruned := Kept(excluded, relPath, ts), PrunedAll(excluded, relPath, ts);
      && |pruned| == |kept|
      && forall k :: 0 <= k < |kept| ==>
           && !excluded(Join(relPath, kept[k].info.name))
           && pruned[k] == Pruned(excluded, Join(relPath, kept[k].info.name), kept[k])
  {
    if ts != [] {
      PrunedChildren(excluded, relPath, ts[..|ts| - 1]);
    }
  }

  lemma {:induction false} PrunedIsWellFormed(excluded: string -> bool, relPath: string, t: Tree)
    ensures WellFormed(Pruned(excluded, relPath, t))
    decreases t, 1
  {
    if t.info.typ == TYPE_DIRECTORY {
      PrunedAllAreWellFormed(excluded, relPath, t.children);
    }
  }

  lemma {:induction false} PrunedAllAreWellFormed(excluded: string -> bool, relPath: string, ts: seq<Tree>)
    ensures forall u :: u in PrunedAll(excluded, relPath, ts) ==> WellFormed(u)
    decreases ts, 0
  {
    if ts != [] {
      var last := |ts| - 1;
      PrunedAllAreWellFormed(excluded, relPath, ts[..last]);
      PrunedIsWellFormed(excluded, Join(relPath, ts[last].info.name), ts[last]);
    }
  }

  predicate Before(a: string, b: string) {
    if b == "" then false
    else if a == "" then true
    else a[0] < b[0] || (a[0] == b[0] && Before(a[1..], b[1..]))
  }

  predicate SortedByName(ts: seq<Tree>) {
    forall i, j :: 0 <= i < j < |ts| ==> Before(ts[i].info.name, ts[j].info.name)
  }

  /** Children are what was listed and not excluded, still in order of name. */
  lemma {:induction false} KeptIsSorted(excluded: string -> bool, relPath: string, listing: seq<Tree>)
    requires SortedByName(listing)
    ensures SortedByName(Kept(excluded, relPath, listing))
    ensures forall t :: t in Kept(excluded, relPath, listing)
                   <==> t in listing && !excluded(Join(relPath, t.info.name))
  {
    if listing != [] {
      var last := |listing| - 1;
      var init := listing[..last];
      KeptIsSorted(excluded, relPath, init);
      assert listing == init + [listing[last]];
      var kept := Kept(excluded, relPath, init);
      forall i | 0 <= i < |kept|
        ensures Before(kept[i].info.name, listing[last].info.name)
      {
        assert kept[i] in init;
      }
    }
  }

  // ---- Scores ----

  function BlobScore(env: Env, blob: Bytes): Option<Score> {
    match env.crypto.encrypt(blob)
    case None => None
    case Some(ct) => Some(env.crypto.hash(ct))
  }

  /** The pieces in which the content of a file is read. */
  function Chunks(content: Bytes, size: nat): (chunks: seq<Bytes>)
    requires size >= 1
    ensures forall c :: c in chunks ==> 1 <= |c| <= size
    decreases |content|
  {
    if |content| == 0 then []
    else if |content| <= size then [content]
    else [content[..size]] + Chunks(content[size..], size)
  }

  lemma {:induction false} ChunksConcat(content: Bytes, size: nat)
    requires size >= 1
    ensures Concat(Chunks(content, size)) == content
    decreases |content|
  {
    if 0 < |content| <= size {
      assert Concat([content]) == content + Concat([]);
    } else if |content| > size {
      ChunksConcat(content[size..], size);
      assert Chunks(content, size)[1..] == Chunks(content[size..], size);
      assert content == content[..size] + content[size..];
    }
  }

  /** All pieces but the last are of full size. */
  lemma {:induction false} ChunksAreFull(content: Bytes, size: nat, i: nat)
    requires size >= 1 && i < |Chunks(content, size)|
    ensures |Chunks(content, size)[i]| <= size
    ensures i < |Chunks(content, size)| - 1 ==> |Chunks(content, size)[i]| == size
    decreases |content|
  {
    assert Chunks(content, size)[i] in Chunks(content, size);
    if |content| > size {
      assert Chunks(content, size)[1..] == Chunks(content[size..], size);
      if i > 0 {
        ChunksAreFull(content[size..], size, i - 1);
      }
    }
  }

  function ChunkScores(env: Env, chunks: seq<Bytes>): Option<seq<Score>> {
    if chunks == [] then Some([])
    else
      var s := BlobScore(env, MarshalFile(chunks[0]));
      var rest := ChunkScores(env, chunks[1..]);
      if s.Some? && rest.Some? then Some([s.value] + rest.value) else None
  }

  function FileScores(env: Env, content: Bytes): Option<seq<Score>>
    requires env.chunkSize >= 1
  {
    ChunkScores(env, Chunks(content, env.chunkSize))
  }

  function DirScores(env: Env, entries: seq<FileInfo>): Option<seq<Score>> {
    match MarshalledDir(env.wire, entries)
    case None => None
    case Some(b) =>
      match BlobScore(env, b)
      case None => None
      case Some(s) => Some([s])
  }

  /** The score list of a node, given the entries of its children with theirs. */
  function NodeScores(env: Env, info: FileInfo, content: Bytes, entries: seq<FileInfo>): Option<seq<Score>>
    requires env.chunkSize >= 1
  {
    if info.typ == TYPE_FILE then FileScores(env, content)
    else if info.typ == TYPE_DIRECTORY then DirScores(env, entries)
    else if info.typ == TYPE_SYMLINK then Some([])
    else None
  }

  /** The score list of a tree, defined by recursion over it. */
  function TreeScores(env: Env, t: Tree): Option<seq<Score>>
    requires env.chunkSize >= 1
    decreases t, 1
  {
    match TreeEntries(env, t.children)
    case None => None
    case Some(entries) => NodeScores(env, t.info, t.content, entries)
  }

  function TreeEntries(env: Env, ts: seq<Tree>): (r: Option<seq<FileInfo>>)
    requires env.chunkSize >= 1
    ensures r.Some? ==> |r.value| == |ts|
    decreases ts, 0
  {
    if ts == [] then Some([])
    else
      var last := |ts| - 1;
      var init := TreeEntries(env, ts[..last]);
      var scores := TreeScores(env, ts[last]);
      if init.Some? && scores.Some?
      then Some(init.value + [ts[last].info.(scores := scores.value)])
      else None
  }

  lemma {:induction false} EntryOfChild(env: Env, ts: seq<Tree>, k: nat)
    requires env.chunkSize >= 1 && k < |ts| && TreeEntries(env, ts).Some?
    ensures TreeScores(env, ts[k]).Some?
    ensures TreeEntries(env, ts).value[k] == ts[k].info.(scores := TreeScores(env, ts[k]).value)
  {
    if k < |ts| - 1 {
      EntryOfChild(env, ts[..|ts| - 1], k);
    }
  }

  ghost predicate IsEntryOf(env: Env, child: Tree, entry: FileInfo)
    requires env.chunkSize >= 1
  {
    TreeScores(env, child).Some? && entry == child.info.(scores := TreeScores(env, child).value)
  }

  lemma OneMoreEntry(env: Env, ts: seq<Tree>, entries: seq<FileInfo>, last: nat)
    requires env.chunkSize >= 1 && |entries| == |ts| == last + 1
    requires TreeEntries(env, ts[..last]) == Some(entries[..last]) && IsEntryOf(env, ts[last], entries[last])
    ensures TreeEntries(env, ts) == Some(entries)
  {
    assert entries == entries[..last] + [entries[last]];
  }

  lemma {:induction false} EntriesFromChildren(env: Env, ts: seq<Tree>, entries: seq<FileInfo>)
    requires env.chunkSize >= 1 && |entries| == |ts|
    requires forall k :: 0 <= k < |ts| ==> IsEntryOf(env, ts[k], entries[k])
    ensures TreeEntries(env, ts) == Some(entries)
  {
    if ts != [] {
      var last := |ts| - 1;
      EntriesFromChildren(env, ts[..last], entries[..last]);
      OneMoreEntry(env, ts, entries, last);
    }
  }

  // ---- The blobs of a tree ----

  function CiphertextOf(env: Env, blob: Bytes): set<Bytes> {
    match env.crypto.encrypt(blob)
    case None => {}
    case Some(ct) => {ct}
  }

  function ChunkBlobs(env: Env, chunks: seq<Bytes>): set<Bytes> {
    if chunks == [] then {}
    else CiphertextOf(env, MarshalFile(chunks[0])) + ChunkBlobs(env, chunks[1..])
  }

  function ListingBlobs(env: Env, ts: seq<Tree>): set<Bytes>
    requires env.chunkSize >= 1
  {
    match TreeEntries(env, ts)
    case None => {}
    case Some(entries) =>
      match MarshalledDir(env.wire, entries)
      case None => {}
      case Some(b) => CiphertextOf(env, b)
  }

  /** Everything that saving a tree stores, as it is stored. */
  function TreeBlobs(env: Env, t: Tree): set<Bytes>
    requires env.chunkSize >= 1
    decreases t, 1
  {
    (if t.info.typ == TYPE_FILE then ChunkBlobs(env, Chunks(t.content, env.chunkSize)) else {}) +
    (if t.info.typ == TYPE_DIRECTORY then ListingBlobs(env, t.children) else {}) +
    ForestBlobs(env, t.children)
  }

  function ForestBlobs(env: Env, ts: seq<Tree>): set<Bytes>
    requires env.chunkSize >= 1
    decreases ts, 0
  {
    if ts == [] then {} else ForestBlobs(env, ts[..|ts| - 1]) + TreeBlobs(env, ts[|ts| - 1])
  }

  lemma {:induction false} ChildBlobs(env: Env, ts: seq<Tree>, k: nat)
    requires env.chunkSize >= 1 && k < |ts|
    ensures TreeBlobs(env, ts[k]) <= ForestBlobs(env, ts)
  {
    if k < |ts| - 1 {
      ChildBlobs(env, ts[..|ts| - 1], k);
    }
  }

  lemma {:induction false} SubtreeBlobs(env: Env, t: Tree, p: Path)
    requires env.chunkSize >= 1 && Subtree(t, p).Some?
    ensures TreeBlobs(env, Subtree(t, p).value) <= TreeBlobs(env, t)
    decreases |p|
  {
    if p != [] {
      var above := Subtree(t, p[..|p| - 1]).value;
      SubtreeBlobs(env, t, p[..|p| - 1]);
      ChildBlobs(env, above.children, p[|p| - 1]);
    }
  }

  // ---- The score map ----

  datatype Key = Key(path: string, permissions: nat, uid: nat, gid: nat, mtime: Time, inode: nat, size: nat)

  const MIN_ELAPSED_SECONDS := 5 * 60

  function MakeScoreMapKey(relPath: string, info: FileInfo, now: Time): Option<Key> {
    if info.typ != TYPE_FILE then None
    else if Nanoseconds(now) - Nanoseconds(info.mtime) < MIN_ELAPSED_SECONDS * NANOS_PER_SECOND then None
    else Some(Key(relPath, info.permissions, info.uid, info.gid, info.mtime, info.inode, info.size))
  }

  /** Two keys are equal if and only if path, permissions, owner, modification time, inode and size all are. */
  lemma EqualKeysEqualStats(relPath: string, info: FileInfo, now: Time, relPath': string, info': FileInfo, now': Time)
    requires MakeScoreMapKey(relPath, info, now).Some? && MakeScoreMapKey(relPath', info', now').Some?
    ensures MakeScoreMapKey(relPath, info, now) == MakeScoreMapKey(relPath', info', now') <==>
      && relPath == relPath' && info.permissions == info'.permissions
      && info.uid == info'.uid && info.gid == info'.gid
      && info.mtime == info'.mtime && info.inode == info'.inode && info.size == info'.size
  {
  }

  /** A file has a key if and only if five minutes have passed since its modification time; nothing else has. */
  lemma HasKeyIff(relPath: string, info: FileInfo, now: Time)
    ensures MakeScoreMapKey(relPath, info, now).Some? <==>
      info.typ == TYPE_FILE && Nanoseconds(now) - Nanoseconds(info.mtime) >= 300_000_000_000
  {
  }

  /** What a file was at some time: when it was last written, its stat information and its content. */
  datatype Version = Version(written: Time, info: FileInfo, content: Bytes)

  /**
   The versions of a file, each with a modification time taken from a clock
   less than five minutes behind the time of writing.
   */
  ghost predicate IsHistory(versions: seq<Version>) {
    && (forall i, j :: 0 <= i < j < |versions| ==> Nanoseconds(versions[i].written) <= Nanoseconds(versions[j].written))
    && (forall i :: 0 <= i < |versions| ==>
          Nanoseconds(versions[i].written) - Nanoseconds(versions[i].info.mtime) < MIN_ELAPSED_SECONDS * NANOS_PER_SECOND)
  }

  /** At this time version i has not been overwritten yet. */
  ghost predicate IsCurrent(versions: seq<Version>, i: nat, now: Time) {
    && i < |versions|
    && (i + 1 < |versions| ==> Nanoseconds(now) <= Nanoseconds(versions[i + 1].written))
  }

  lemma LaterIsWrittenLater(versions: seq<Version>, i: nat, now: Time, j: nat)
    requires IsHistory(versions) && IsCurrent(versions, i, now) && j < |versions|
    ensures i < j ==> Nanoseconds(now) <= Nanoseconds(versions[j].written)
  {
    if i < j {
      assert Nanoseconds(versions[i + 1].written) <= Nanoseconds(versions[j].written);
    }
  }

  lemma SameTimeSameVersion(versions: seq<Version>, relPath: string, i: nat, i': nat, now: Time, j: nat, j': nat, now': Time)
    requires IsHistory(versions) && i < |versions| && j < |versions|
    requires IsCurrent(versions, i', now) && IsCurrent(versions, j', now')
    requires versions[i'].info.mtime == versions[i].info.mtime && versions[j'].info.mtime == versions[j].info.mtime
    requires MakeScoreMapKey(relPath, versions[i].info, now).Some?
    requires MakeScoreMapKey(relPath, versions[i].info, now) == MakeScoreMapKey(relPath, versions[j].info, now')
    ensures j' <= i'
  {
    assert Nanoseconds(versions[j'].written) - Nanoseconds(versions[j'].info.mtime) < MIN_ELAPSED_SECONDS * NANOS_PER_SECOND;
    LaterIsWrittenLater(versions, i', now, j');
  }

  /**
   What the five minutes are for. Two keys of a file are made, from the stat
   information of versions i and j, at times when i' and j' are current; that the
   file may have been written in between is no matter as long as its modification
   time is still the same. Then the keys are equal only if the contents are.
   */
  lemma KeyDeterminesContent(versions: seq<Version>, relPath: string, i: nat, i': nat, now: Time, j: nat, j': nat, now': Time)
    requires IsHistory(versions) && i < |versions| && j < |versions|
    requires IsCurrent(versions, i', now) && IsCurrent(versions, j', now')
    requires versions[i'].info.mtime == versions[i].info.mtime && versions[j'].info.mtime == versions[j].info.mtime
    requires MakeScoreMapKey(relPath, versions[i].info, now).Some?
    requires MakeScoreMapKey(relPath, versions[i].info, now) == MakeScoreMapKey(relPath, versions[j].info, now')
    ensures versions[i'].content == versions[j'].content
  {
    SameTimeSameVersion(versions, relPath, i, i', now, j, j', now');
    SameTimeSameVersion(versions, relPath, j, j', now', i, i', now);
  }

  /**
   It does matter if the modification time has changed since: a file is stat'ed
   once, a key is made six minutes later, the file is written another two minutes
   later, and from the same stat information the same key is made then, for
   another content.
   */
  lemma OutdatedKey(relPath: string, info: FileInfo, before: Bytes, after: Bytes)
    returns (versions: seq<Version>, now: Time, now': Time)
    requires info.typ == TYPE_FILE && info.mtime == Time(0, 0)
    ensures IsHistory(versions) && |versions| == 2 && versions[0].info == info
    ensures IsCurrent(versions, 0, now) && IsCurrent(versions, 1, now') && Nanoseconds(versions[1].written) <= Nanoseconds(now')
    ensures versions[0].content == before && versions[1].content == after
    ensures MakeScoreMapKey(relPath, info, now).Some?
    ensures MakeScoreMapKey(relPath, info, now) == MakeScoreMapKey(relPath, info, now')
  {
    var written := Time(8 * 60, 0);
    versions := [Version(Time(0, 0), info, before), Version(written, info.(mtime := written), after)];
    now, now' := Time(6 * 60, 0), Time(10 * 60, 0);
  }

  ghost predicate AllStored(bucket: Bucket, scores: seq<Score>) {
    forall s :: s in scores ==> BlobName(s) in bucket
  }

  /** Entries name the stored blobs of the content that their key determines. */
  ghost predicate MapSound(env: Env, scoreMap: map<Key, seq<Score>>, contentOf: Key -> Bytes, bucket: Bucket)
    requires env.chunkSize >= 1
  {
    forall k :: k in scoreMap ==>
      FileScores(env, contentOf(k)) == Some(scoreMap[k]) && AllStored(bucket, scoreMap[k])
  }

  // ---- The visitor ----

  class FsNode {
    const relPath: string
    const content: Bytes
    var info: FileInfo
    // Absent until the node has been given scores.
    var scores: Option<seq<Score>>
    var children: seq<FsNode>

    constructor (relPath: string, content: Bytes, info: FileInfo)
      ensures this.relPath == relPath && this.content == content && this.info == info
      ensures scores == None && children == []
    {
      this.relPath, this.content, this.info := relPath, content, info;
      scores, children := None, [];
    }

    /** What a listing says of this node. */
    function Entry(): FileInfo
      reads this
    {
      info.(scores := if scores.Some? then scores.value else [])
    }
  }

  class Visitor {
    const env: Env
    const store: Store
    var scoreMap: map<Key, seq<Score>>
    // What the stat information of a file is taken to determine.
    ghost const contentOf: Key -> Bytes

    ghost predicate Valid()
      reads this, store
    {
      && env.chunkSize >= 1
      && store.crypto == env.crypto
      && StoreSound(env.crypto, store.Abs())
      && MapSound(env, scoreMap, contentOf, store.bucket)
    }

    constructor (env: Env, store: Store, scoreMap: map<Key, seq<Score>>, ghost contentOf: Key -> Bytes)
      requires env.chunkSize >= 1 && store.crypto == env.crypto && StoreSound(env.crypto, store.Abs())
      requires MapSound(env, scoreMap, contentOf, store.bucket)
      ensures Valid() && fresh(this) && this.env == env && this.store == store
    {
      this.env, this.store, this.scoreMap, this.contentOf := env, store, scoreMap, contentOf;
    }

    /** The bucket only gains objects. */
    twostate predicate Grows()
      reads this, store
    {
      forall name :: name in old(store.bucket) ==> name in store.bucket
    }

    method SaveBlob(blob: Bytes, create: string -> Creation) returns (s: Option<Score>)
      requires Valid()
      modifies store
      ensures Valid() && Grows()
      ensures s.Some? ==> s == BlobScore(env, blob) && BlobName(s.value) in store.bucket
      ensures BlobScore(env, blob).Some? && create(BlobName(BlobScore(env, blob).value)).Stored? ==> s.Some?
    {
      s := store.Save(blob, create);
      var ct := env.crypto.encrypt(blob);
      if ct.Some? {
        SaveKeepsSound(env.crypto, old(store.Abs()), create, ct.value);
      }
    }

    /** The score map may forget any of its entries at any time. */
    method Forget(keys: set<Key>)
      requires Valid()
      modifies this
      ensures Valid() && scoreMap == old(scoreMap) - keys
    {
      scoreMap := scoreMap - keys;
    }

    /**
     With or without a hit in the score map, the scores are those of the
     content, and the blobs are in the bucket. It fails only when opening or
     reading the file does, or encryption, or the creation of an object; then
     it still returns the scores of the chunks saved before. `fails` says which
     chunks cannot be read. A hit is returned without saving anything; otherwise
     the map has the scores afterwards, if the file has a key and all went well.
     */
    method SaveFile(relPath: string, info: FileInfo, content: Bytes, now: Time, create: string -> Creation,
                    fails: nat -> bool)
      returns (scores: seq<Score>, ok: bool)
      requires Valid() && info.typ == TYPE_FILE
      requires MakeScoreMapKey(relPath, info, now).Some? ==> contentOf(MakeScoreMapKey(relPath, info, now).value) == content
      modifies this, store
      ensures Valid() && Grows() && AllStored(store.bucket, scores)
      ensures ok ==> FileScores(env, content) == Some(scores)
      ensures FileScores(env, content).Some? ==> scores <= FileScores(env, content).value
      ensures !ok ==> FailsAt(content, scores, create, fails)
      ensures FileScores(env, content).Some? && (forall name :: create(name).Stored?) && (forall k :: !fails(k)) ==> ok
      ensures var key := MakeScoreMapKey(relPath, info, now);
        if key.Some? && key.value in old(scoreMap)
        then ok && scores == old(scoreMap)[key.value] && scoreMap == old(scoreMap) && store.Abs() == old(store.Abs())
        else scoreMap == if key.Some? && ok then old(scoreMap)[key.value := scores] else old(scoreMap)
    {
      var key := MakeScoreMapKey(relPath, info, now);
      if key.Some? && key.value in scoreMap {
        return scoreMap[key.value], true;
      }
      scores, ok := SaveChunks(content, create, fails);
      if key.Some? && ok {
        scoreMap := scoreMap[key.value := scores];
      }
    }

    /** After the chunks with these scores comes one that cannot be read, encrypted or created. */
    predicate FailsAt(content: Bytes, scores: seq<Score>, create: string -> Creation, fails: nat -> bool)
      requires env.chunkSize >= 1
    {
      || fails(|scores|) || FileScores(env, content).None?
      || (|scores| < |FileScores(env, content).value| && !create(BlobName(FileScores(env, content).value[|scores|])).Stored?)
    }

    /** The loop over the chunks of a file; it stops at the first that cannot be saved. */
    method SaveChunks(content: Bytes, create: string -> Creation, fails: nat -> bool)
      returns (scores: seq<Score>, ok: bool)
      requires Valid()
      modifies store
      ensures Valid() && Grows() && AllStored(store.bucket, scores)
      ensures ok ==> FileScores(env, content) == Some(scores)
      ensures FileScores(env, content).Some? ==> scores <= FileScores(env, content).value
      ensures !ok ==> FailsAt(content, scores, create, fails)
      ensures FileScores(env, content).Some? && (forall name :: create(name).Stored?) && (forall k :: !fails(k)) ==> ok
    {
      scores := [];
      var rest := content;
      PrependNothing(FileScores(env, content));
      while rest != []
        invariant Valid() && Grows()
        invariant AllStored(store.bucket, scores)
        invariant FileScores(env, content) == Prepend(scores, FileScores(env, rest))
        decreases |rest|
      {
        if fails(|scores|) {
          return scores, false;
        }
        var n := if |rest| <= env.chunkSize then |rest| else env.chunkSize;
        ChunksHead(rest, env.chunkSize);
        var s := SaveBlob(MarshalFile(rest[..n]), create);
        if s.None? {
          FirstOfRest(env, content, scores, rest);
          return scores, false;
        }
        ghost var tail := FileScores(env, rest[n..]);
        assert FileScores(env, rest) == Prepend([s.value], tail);
        PrependTwice(scores, [s.value], tail);
        scores := scores + [s.value];
        rest := rest[n..];
      }
      assert scores + [] == scores;
      return scores, !fails(|scores|);
    }

    method SaveDir(children: seq<FsNode>, create: string -> Creation) returns (r: Option<seq<Score>>)
      requires Valid()
      modifies store
      ensures Valid() && Grows()
      ensures r.Some? ==> r == DirScores(env, Entries(children)) && AllStored(store.bucket, r.value)
      ensures DirScores(env, Entries(children)).Some? && (forall name :: create(name).Stored?) ==> r.Some?
    {
      var entries: seq<FileInfo> := [];
      for i := 0 to |children|
        invariant entries == Entries(children)[..i]
      {
        entries := entries + [children[i].Entry()];
      }
      assert Entries(children)[..|children|] == Entries(children);
      var b := MarshalDir(env.wire, entries);
      if b.None? {
        return None;
      }
      var s := SaveBlob(b.value, create);
      if s.None? {
        return None;
      }
      return Some([s.value]);
    }

    /**
     Check the type, set the scores if there are none, and pass on the node, if
     `passed`. When the visit fails the node may be left with scores all the same:
     those of the first chunks of a file, or all of them if the node could not be
     passed on.
     */
    method Visit(n: FsNode, now: Time, create: string -> Creation, fails: nat -> bool, passed: bool) returns (ok: bool)
      requires Valid() && (n.scores.Some? ==> AllStored(store.bucket, n.scores.value))
      requires MakeScoreMapKey(n.relPath, n.info, now).Some? ==>
        contentOf(MakeScoreMapKey(n.relPath, n.info, now).value) == n.content
      modifies this, store, n`scores
      ensures Valid() && Grows() && AllStored(store.bucket, n.Entry().scores)
      ensures old(n.scores).Some? ==>
        n.scores == old(n.scores) && ok == (passed && n.info.typ in {TYPE_FILE, TYPE_DIRECTORY, TYPE_SYMLINK})
      ensures ok && old(n.scores) == None ==>
        NodeScores(env, n.info, n.content, old(Entries(n.children))) == Some(n.Entry().scores)
      ensures (&& NodeScores(env, n.info, n.content, old(Entries(n.children))).Some? && passed
               && (forall name :: create(name).Stored?) && (forall k :: !fails(k))) ==> ok
      ensures !ok && old(n.scores) == None && n.scores.Some? && NodeScores(env, n.info, n.content, old(Entries(n.children))).Some? ==>
        n.scores.value <= NodeScores(env, n.info, n.content, old(Entries(n.children))).value
    {
      if n.info.typ != TYPE_FILE && n.info.typ != TYPE_DIRECTORY && n.info.typ != TYPE_SYMLINK {
        return false;
      }
      if n.scores.Some? {
        return passed;
      }
      if n.info.typ == TYPE_FILE {
        var scores;
        scores, ok := SaveFile(n.relPath, n.info, n.content, now, create, fails);
        n.scores := Some(scores);
      } else if n.info.typ == TYPE_DIRECTORY {
        n.scores := SaveDir(n.children, create);
        ok := n.scores.Some?;
      } else {
        ok := true;
      }
      if !passed {
        ok := false;
      }
    }
  }

  lemma FirstOfRest(env: Env, content: Bytes, scores: seq<Score>, rest: Bytes)
    requires env.chunkSize >= 1 && rest != [] && FileScores(env, content) == Prepend(scores, FileScores(env, rest))
    ensures FileScores(env, content).Some? ==>
      var n := if |rest| <= env.chunkSize then |rest| else env.chunkSize;
      && |scores| < |FileScores(env, content).value|
      && BlobScore(env, MarshalFile(rest[..n])) == Some(FileScores(env, content).value[|scores|])
  {
    ChunksHead(rest, env.chunkSize);
  }

  function Entries(nodes: seq<FsNode>): seq<FileInfo>
    reads nodes
  {
    seq(|nodes|, i requires 0 <= i < |nodes| reads nodes => nodes[i].Entry())
  }

  /** Nodes that have what is known of the trees, and their scores, make the entries of the trees. */
  lemma {:induction false} NodesMakeEntries(env: Env, nodes: seq<FsNode>, ts: seq<Tree>)
    requires env.chunkSize >= 1 && |nodes| == |ts|
    requires forall k :: 0 <= k < |ts| ==>
      TreeScores(env, ts[k]).Some? && nodes[k].info == ts[k].info && nodes[k].scores == TreeScores(env, ts[k])
    ensures TreeEntries(env, ts) == Some(Entries(nodes))
  {
    forall k | 0 <= k < |ts|
      ensures IsEntryOf(env, ts[k], Entries(nodes)[k])
    {
      assert nodes[k].scores == TreeScores(env, ts[k]);
    }
    EntriesFromChildren(env, ts, Entries(nodes));
  }

  function Prepend<T>(xs: seq<T>, rest: Option<seq<T>>): Option<seq<T>> {
    if rest.Some? then Some(xs + rest.value) else None
  }

  lemma PrependNothing<T>(rest: Option<seq<T>>)
    ensures Prepend([], rest) == rest
  {
    if rest.Some? {
      assert [] + rest.value == rest.value;
    }
  }

  lemma PrependTwice<T>(xs: seq<T>, ys: seq<T>, rest: Option<seq<T>>)
    ensures Prepend(xs, Prepend(ys, rest)) == Prepend(xs + ys, rest)
  {
    if rest.Some? {
      assert xs + (ys + rest.value) == xs + ys + rest.value;
    }
  }

  lemma ChunksHead(content: Bytes, size: nat)
    requires size >= 1 && content != []
    ensures var n := if |content| <= size then |content| else size;
      Chunks(content, size) == [content[..n]] + Chunks(content[n..], size)
  {
    if |content| <= size {
      assert content[..|content|] == content && content[|content|..] == [];
    }
  }

  // ---- The root score ----

  /** A node as the visitor passes it on. */
  datatype Passed = Passed(relPath: string, scores: seq<Score>)

  predicate OnlyRoot(nodes: seq<Passed>, i: int) {
    && 0 <= i < |nodes| && nodes[i].relPath == ""
    && forall j :: 0 <= j < |nodes| && j != i ==> nodes[j].relPath != ""
  }

  /** Finds the score of the one root node, in whatever order nodes come. */
  method FindRootScore(nodes: seq<Passed>) returns (r: Result<Score, Error>)
    ensures r.Success? ==> exists i :: OnlyRoot(nodes, i) && nodes[i].scores == [r.value]
    ensures r.Failure? ==> forall i :: OnlyRoot(nodes, i) ==> |nodes[i].scores| != 1
  {
    var found := false;
    var score: Score := seq(SCORE_LENGTH, _ => 0);
    ghost var root := 0;
    for i := 0 to |nodes|
      invariant found ==> 0 <= root < i && nodes[root].relPath == "" && nodes[root].scores == [score]
      invariant forall j :: 0 <= j < i && nodes[j].relPath == "" ==> found && j == root
    {
      if nodes[i].relPath != "" {
        continue;
      }
      if found {
        return Failure("Found a duplicate root node");
      }
      found := true;
      if |nodes[i].scores| != 1 {
        return Failure("Unexpected score count for root");
      }
      score := nodes[i].scores[0];
      root := i;
    }
    if !found {
      return Failure("No root node found");
    }
    assert OnlyRoot(nodes, root);
    return Success(score);
  }
}
