/**
 Any number of visits of a save at once (internal/save/visitor.go and the stores
 below it), each a series of steps on what they share: the bucket, the set of
 known scores, the score map and the scores of the nodes.
 */
module SaveVisits {
  import opened Wrappers
  import opened Scores
  import opened Times
  import opened Listing
  import opened Trees
  import opened BlobStores
  import opened Save

  /** What is saved. Without caches, neither the score map nor the known scores are consulted. */
  datatype Plan = Plan(env: Env, tree: Tree, caches: bool)

  /** What a visit does once a blob has been saved. */
  datatype After = MoreChunks(saved: seq<Score>, rest: Bytes, key: Option<Key>) | ListingSaved

  /**
   Where a visit is: reading a file with the scores of the chunks saved so far,
   gathering the entries of a listing, or between the steps of saving a blob and
   of handing scores to the node.
   */
  datatype Stage =
    | Starting
    | Reading(saved: seq<Score>, rest: Bytes, key: Option<Key>)
    | Gathering(entries: seq<FileInfo>)
    | LookingUp(ct: Bytes, after: After)
    | Creating(ct: Bytes, after: After)
    | Adding(ct: Bytes, after: After)
    | Remembering(found: seq<Score>, key: Option<Key>)
    | Giving(found: seq<Score>)
    | PassingOn
    | Complete
    | GivenUp

  datatype World = World(state: State, scoreMap: map<Key, seq<Score>>, given: map<Path, seq<Score>>, stages: map<Path, Stage>)
  {
    function StageOf(p: Path): Stage {
      if p in stages then stages[p] else Starting
    }

    function GivenTo(p: Path): Option<seq<Score>> {
      if p in given then Some(given[p]) else None
    }

    /** What a listing shows as the scores of the node. */
    function ScoresAt(p: Path): seq<Score> {
      Get(GivenTo(p), [])
    }

    function Go(p: Path, stage: Stage): World {
      this.(stages := stages[p := stage])
    }

    /** The visit fails; that of a file leaves the scores of the chunks that it has saved on its node. */
    function GiveUp(p: Path, after: After): World {
      match after
      case MoreChunks(saved, _, _) => Go(p, GivenUp).(given := given[p := saved])
      case ListingSaved => Go(p, GivenUp)
    }
  }

  /** What is not up to the visit: the time, whether reading, waiting or passing on succeeds, and how a creation ends. */
  datatype Fortune = Fortune(now: Time, ok: bool, creation: Creation)

  /** Only the stage and the scores of p differ. */
  ghost predicate OnlyOf(w: World, p: Path, w': World) {
    && p in w'.stages && w'.stages == w.stages[p := w'.stages[p]]
    && (w'.given == w.given || (p in w'.given && w'.given == w.given[p := w'.given[p]]))
  }

  function AfterSaving(after: After, s: Score): Stage {
    match after
    case MoreChunks(saved, rest, key) => Reading(saved + [s], rest, key)
    case ListingSaved => Giving([s])
  }

  /** Check the type, and look the file up in the score map. */
  function Start(plan: Plan, w: World, p: Path, u: Tree, f: Fortune): (w': World)
    ensures OnlyOf(w, p, w')
  {
    if u.info.typ !in {TYPE_FILE, TYPE_DIRECTORY, TYPE_SYMLINK} then w.Go(p, GivenUp)
    else if p in w.given || u.info.typ == TYPE_SYMLINK then w.Go(p, PassingOn)
    else if u.info.typ == TYPE_DIRECTORY then w.Go(p, Gathering([]))
    else
      var key := MakeScoreMapKey(RelPath(plan.tree, p), u.info, f.now);
      if plan.caches && key.Some? && key.value in w.scoreMap then w.Go(p, Giving(w.scoreMap[key.value]))
      else w.Go(p, Reading([], u.content, key))
  }

  /** Read and encrypt the next chunk, or find that there is none. */
  function Read(plan: Plan, w: World, p: Path, saved: seq<Score>, rest: Bytes, key: Option<Key>, ok: bool): (w': World)
    ensures OnlyOf(w, p, w')
  {
    var n := if |rest| <= plan.env.chunkSize then |rest| else plan.env.chunkSize;
    if !ok then w.GiveUp(p, MoreChunks(saved, rest, key))
    else if rest == [] then w.Go(p, Remembering(saved, key))
    else
      match plan.env.crypto.encrypt(MarshalFile(rest[..n]))
      case None => w.GiveUp(p, MoreChunks(saved, rest, key))
      case Some(ct) => w.Go(p, LookingUp(ct, MoreChunks(saved, rest[n..], key)))
  }

  /** Add the entry of the next child as it is now, or marshal and encrypt the listing. */
  function Gather(plan: Plan, w: World, p: Path, u: Tree, entries: seq<FileInfo>, ok: bool): (w': World)
    ensures OnlyOf(w, p, w')
  {
    if !ok then w.GiveUp(p, ListingSaved)
    else if |entries| < |u.children| then
      var k := |entries|;
      w.Go(p, Gathering(entries + [u.children[k].info.(scores := w.ScoresAt(p + [k]))]))
    else
      match MarshalledDir(plan.env.wire, entries)
      case None => w.GiveUp(p, ListingSaved)
      case Some(b) =>
        match plan.env.crypto.encrypt(b)
        case None => w.GiveUp(p, ListingSaved)
        case Some(ct) => w.Go(p, LookingUp(ct, ListingSaved))
  }

  function Create(plan: Plan, w: World, p: Path, ct: Bytes, after: After, creation: Creation): (w': World)
    ensures OnlyOf(w, p, w')
  {
    var stored := w.(state := w.state.(bucket := w.state.bucket[BlobName(plan.env.crypto.hash(ct)) := ct]));
    match creation
    case Stored => stored.Go(p, Adding(ct, after))
    case NotStored => w.GiveUp(p, after)
    case Lost => stored.GiveUp(p, after)
  }

  predicate CanAct(plan: Plan, w: World, p: Path) {
    Subtree(plan.tree, p).Some? && w.StageOf(p) !in {Complete, GivenUp}
  }

  /** The next step of the visit of p. */
  function Act(plan: Plan, w: World, p: Path, f: Fortune): (w': World)
    requires CanAct(plan, w, p)
    ensures OnlyOf(w, p, w')
  {
    var u := Subtree(plan.tree, p).value;
    match w.StageOf(p)
    case Starting => Start(plan, w, p, u, f)
    case Reading(saved, rest, key) => Read(plan, w, p, saved, rest, key, f.ok)
    case Gathering(entries) => Gather(plan, w, p, u, entries, f.ok)
    case LookingUp(ct, after) =>
      var s := plan.env.crypto.hash(ct);
      if !f.ok then w.GiveUp(p, after)
      else if plan.caches && Hex(s) in w.state.known then w.Go(p, AfterSaving(after, s))
      else w.Go(p, Creating(ct, after))
    case Creating(ct, after) => Create(plan, w, p, ct, after, f.creation)
    case Adding(ct, after) =>
      var s := plan.env.crypto.hash(ct);
      w.(state := w.state.(known := w.state.known + {Hex(s)})).Go(p, AfterSaving(after, s))
    case Remembering(found, key) =>
      (if key.Some? then w.(scoreMap := w.scoreMap[key.value := found]) else w).Go(p, Giving(found))
    case Giving(found) => w.Go(p, PassingOn).(given := w.given[p := found])
    case PassingOn => w.Go(p, if f.ok then Complete else GivenUp)
  }

  // ---- What every step keeps ----

  /** Objects are those there were at first, or blobs of the tree under their own names. */
  ghost predicate FromTree(plan: Plan, first: Bucket, bucket: Bucket)
    requires plan.env.chunkSize >= 1
  {
    && (forall name :: name in first ==> name in bucket)
    && forall name :: name in bucket ==>
         || (name in first && bucket[name] == first[name])
         || (bucket[name] in TreeBlobs(plan.env, plan.tree) && name == BlobName(plan.env.crypto.hash(bucket[name])))
  }

  /** Known scores and score map entries name stored blobs, and entries those of the content that their keys determine. */
  ghost predicate SharedOk(plan: Plan, contentOf: Key -> Bytes, first: Bucket,
                           state: State, scoreMap: map<Key, seq<Score>>)
    requires plan.env.chunkSize >= 1
  {
    && StoreSound(plan.env.crypto, state)
    && MapSound(plan.env, scoreMap, contentOf, state.bucket)
    && FromTree(plan, first, state.bucket)
  }

  ghost predicate KeyOk(contentOf: Key -> Bytes, u: Tree, key: Option<Key>) {
    key.Some? ==> contentOf(key.value) == u.content
  }

  /** `saved` and the scores of what is left of the content are the scores of the content. */
  ghost predicate PartSaved(env: Env, bucket: Bucket, u: Tree, saved: seq<Score>, rest: Bytes)
    requires env.chunkSize >= 1
  {
    && FileScores(env, u.content) == Prepend(saved, FileScores(env, rest))
    && AllStored(bucket, saved)
    && ChunkBlobs(env, Chunks(rest, env.chunkSize)) <= ChunkBlobs(env, Chunks(u.content, env.chunkSize))
  }

  ghost predicate RightScores(env: Env, bucket: Bucket, u: Tree, scores: seq<Score>)
    requires env.chunkSize >= 1
  {
    TreeScores(env, u) == Some(scores) && AllStored(bucket, scores)
  }

  /** ct is what is to be saved next, and `after` right once it has been. */
  ghost predicate SavingOk(env: Env, contentOf: Key -> Bytes, bucket: Bucket, u: Tree, ct: Bytes, after: After)
    requires env.chunkSize >= 1
  {
    match after
    case MoreChunks(saved, rest, key) =>
      && u.info.typ == TYPE_FILE && KeyOk(contentOf, u, key) && AllStored(bucket, saved)
      && ct in ChunkBlobs(env, Chunks(u.content, env.chunkSize))
      && FileScores(env, u.content) == Prepend(saved + [env.crypto.hash(ct)], FileScores(env, rest))
      && ChunkBlobs(env, Chunks(rest, env.chunkSize)) <= ChunkBlobs(env, Chunks(u.content, env.chunkSize))
    case ListingSaved =>
      && u.info.typ == TYPE_DIRECTORY
      && ct in ListingBlobs(env, u.children)
      && TreeScores(env, u) == Some([env.crypto.hash(ct)])
  }

  ghost predicate StageOk(env: Env, contentOf: Key -> Bytes, bucket: Bucket, u: Tree, mine: Option<seq<Score>>, stage: Stage)
    requires env.chunkSize >= 1
  {
    match stage
    case Starting => mine == None
    case Reading(saved, rest, key) =>
      u.info.typ == TYPE_FILE && KeyOk(contentOf, u, key) && PartSaved(env, bucket, u, saved, rest)
    case Gathering(entries) =>
      && u.info.typ == TYPE_DIRECTORY && |entries| <= |u.children|
      && forall k :: 0 <= k < |entries| ==> IsEntryOf(env, u.children[k], entries[k])
    case LookingUp(ct, after) => SavingOk(env, contentOf, bucket, u, ct, after)
    case Creating(ct, after) => SavingOk(env, contentOf, bucket, u, ct, after)
    case Adding(ct, after) =>
      SavingOk(env, contentOf, bucket, u, ct, after) && BlobName(env.crypto.hash(ct)) in bucket
    case Remembering(found, key) =>
      && u.info.typ == TYPE_FILE && KeyOk(contentOf, u, key)
      && FileScores(env, u.content) == Some(found) && AllStored(bucket, found)
    case Giving(found) => RightScores(env, bucket, u, found)
    case PassingOn => RightScores(env, bucket, u, Get(mine, []))
    case Complete => RightScores(env, bucket, u, Get(mine, []))
    case GivenUp => true
  }

  ghost predicate OwnOk(plan: Plan, contentOf: Key -> Bytes, w: World, p: Path)
    requires plan.env.chunkSize >= 1 && Subtree(plan.tree, p).Some?
  {
    StageOk(plan.env, contentOf, w.state.bucket, Subtree(plan.tree, p).value, w.GivenTo(p), w.StageOf(p))
  }

  // ---- One step ----

  lemma StageOkInMore(env: Env, contentOf: Key -> Bytes, bucket: Bucket, more: Bucket, u: Tree,
                      mine: Option<seq<Score>>, stage: Stage)
    requires env.chunkSize >= 1 && bucket.Keys <= more.Keys && StageOk(env, contentOf, bucket, u, mine, stage)
    ensures StageOk(env, contentOf, more, u, mine, stage)
  {
  }

  lemma FileTreeScores(env: Env, u: Tree)
    requires env.chunkSize >= 1 && WellFormed(u)
    ensures u.info.typ == TYPE_FILE ==> TreeScores(env, u) == FileScores(env, u.content)
    ensures u.info.typ == TYPE_SYMLINK ==> TreeScores(env, u) == Some([])
  {
  }

  lemma ReadOneChunk(env: Env, u: Tree, saved: seq<Score>, rest: Bytes)
    requires env.chunkSize >= 1 && rest != []
    requires FileScores(env, u.content) == Prepend(saved, FileScores(env, rest))
    requires ChunkBlobs(env, Chunks(rest, env.chunkSize)) <= ChunkBlobs(env, Chunks(u.content, env.chunkSize))
    ensures var n := if |rest| <= env.chunkSize then |rest| else env.chunkSize;
      env.crypto.encrypt(MarshalFile(rest[..n])).Some? ==>
        var ct := env.crypto.encrypt(MarshalFile(rest[..n])).value;
        && ct in ChunkBlobs(env, Chunks(u.content, env.chunkSize))
        && FileScores(env, u.content) == Prepend(saved + [env.crypto.hash(ct)], FileScores(env, rest[n..]))
        && ChunkBlobs(env, Chunks(rest[n..], env.chunkSize)) <= ChunkBlobs(env, Chunks(u.content, env.chunkSize))
  {
    var n := if |rest| <= env.chunkSize then |rest| else env.chunkSize;
    ChunksHead(rest, env.chunkSize);
    var chunks := Chunks(rest, env.chunkSize);
    assert chunks[0] == rest[..n] && chunks[1..] == Chunks(rest[n..], env.chunkSize);
    if env.crypto.encrypt(MarshalFile(rest[..n])).Some? {
      var ct := env.crypto.encrypt(MarshalFile(rest[..n])).value;
      var s := env.crypto.hash(ct);
      assert ct in ChunkBlobs(env, chunks);
      assert FileScores(env, rest) == Prepend([s], FileScores(env, rest[n..]));
      PrependTwice(saved, [s], FileScores(env, rest[n..]));
    }
  }

  /** The children of a directory have their scores. */
  ghost predicate ChildrenReady(plan: Plan, w: World, p: Path, u: Tree)
    requires plan.env.chunkSize >= 1
  {
    forall k :: 0 <= k < |u.children| ==> TreeScores(plan.env, u.children[k]) == Some(w.ScoresAt(p + [k]))
  }

  lemma AfterSavingKeeps(env: Env, contentOf: Key -> Bytes, bucket: Bucket, u: Tree, mine: Option<seq<Score>>,
                         ct: Bytes, after: After)
    requires env.chunkSize >= 1 && SavingOk(env, contentOf, bucket, u, ct, after)
    requires BlobName(env.crypto.hash(ct)) in bucket
    ensures StageOk(env, contentOf, bucket, u, mine, AfterSaving(after, env.crypto.hash(ct)))
  {
  }

  lemma SavingIsOfTree(env: Env, contentOf: Key -> Bytes, bucket: Bucket, t: Tree, p: Path, ct: Bytes, after: After)
    requires env.chunkSize >= 1 && Subtree(t, p).Some?
    requires SavingOk(env, contentOf, bucket, Subtree(t, p).value, ct, after)
    ensures ct in TreeBlobs(env, t)
  {
    SubtreeBlobs(env, t, p);
    assert ct in TreeBlobs(env, Subtree(t, p).value);
  }

  /** Creating an object for a blob of the tree, over another perhaps, keeps what is shared in order. */
  lemma CreatingKeepsShared(plan: Plan, contentOf: Key -> Bytes, first: Bucket,
                            state: State, scoreMap: map<Key, seq<Score>>, ct: Bytes)
    requires plan.env.chunkSize >= 1 && SharedOk(plan, contentOf, first, state, scoreMap)
    requires ct in TreeBlobs(plan.env, plan.tree)
    ensures var bucket := state.bucket[BlobName(plan.env.crypto.hash(ct)) := ct];
      SharedOk(plan, contentOf, first, state.(bucket := bucket), scoreMap)
  {
    var c, name := plan.env.crypto, BlobName(plan.env.crypto.hash(ct));
    var bucket := state.bucket[name := ct];
    forall s: Score | BlobName(s) in bucket
      ensures c.hash(bucket[BlobName(s)]) == s
    {
      if BlobName(s) == name {
        NamesAreDistinct(c.hash(ct), s);
      }
    }
  }

  lemma AddingKeepsShared(plan: Plan, contentOf: Key -> Bytes, first: Bucket,
                          state: State, scoreMap: map<Key, seq<Score>>, s: Score)
    requires plan.env.chunkSize >= 1 && SharedOk(plan, contentOf, first, state, scoreMap)
    requires BlobName(s) in state.bucket
    ensures SharedOk(plan, contentOf, first, state.(known := state.known + {Hex(s)}), scoreMap)
  {
    forall s': Score | Hex(s') in state.known + {Hex(s)}
      ensures BlobName(s') in state.bucket
    {
      if Hex(s') == Hex(s) {
        assert BlobName(s') == BlobName(s);
      }
    }
  }

  lemma RememberingKeepsShared(plan: Plan, contentOf: Key -> Bytes, first: Bucket,
                               state: State, scoreMap: map<Key, seq<Score>>, key: Key, found: seq<Score>)
    requires plan.env.chunkSize >= 1 && SharedOk(plan, contentOf, first, state, scoreMap)
    requires FileScores(plan.env, contentOf(key)) == Some(found) && AllStored(state.bucket, found)
    ensures SharedOk(plan, contentOf, first, state, scoreMap[key := found])
  {
  }

  /** How a step changes what is shared. */
  lemma ActOnShared(plan: Plan, w: World, p: Path, f: Fortune)
    requires CanAct(plan, w, p)
    ensures var w', c := Act(plan, w, p, f), plan.env.crypto;
      match w.StageOf(p)
      case Creating(ct, _) =>
        && w'.scoreMap == w.scoreMap
        && w'.state == if f.creation == NotStored then w.state
                       else w.state.(bucket := w.state.bucket[BlobName(c.hash(ct)) := ct])
      case Adding(ct, _) =>
        w'.scoreMap == w.scoreMap && w'.state == w.state.(known := w.state.known + {Hex(c.hash(ct))})
      case Remembering(found, key) =>
        w'.state == w.state && w'.scoreMap == if key.Some? then w.scoreMap[key.value := found] else w.scoreMap
      case _ => w'.state == w.state && w'.scoreMap == w.scoreMap
  {
  }

  lemma ActKeepsShared(plan: Plan, contentOf: Key -> Bytes, first: Bucket, w: World, p: Path, f: Fortune)
    requires plan.env.chunkSize >= 1 && SharedOk(plan, contentOf, first, w.state, w.scoreMap)
    requires CanAct(plan, w, p) && OwnOk(plan, contentOf, w, p)
    ensures var w' := Act(plan, w, p, f);
      SharedOk(plan, contentOf, first, w'.state, w'.scoreMap) && w.state.bucket.Keys <= w'.state.bucket.Keys
  {
    ActOnShared(plan, w, p, f);
    match w.StageOf(p)
    case Creating(ct, after) =>
      SavingIsOfTree(plan.env, contentOf, w.state.bucket, plan.tree, p, ct, after);
      CreatingKeepsShared(plan, contentOf, first, w.state, w.scoreMap, ct);
    case Adding(ct, _) =>
      AddingKeepsShared(plan, contentOf, first, w.state, w.scoreMap, plan.env.crypto.hash(ct));
    case Remembering(found, key) =>
      if key.Some? {
        RememberingKeepsShared(plan, contentOf, first, w.state, w.scoreMap, key.value, found);
      }
    case _ =>
  }

  /** What stat information is taken to determine of the files of the tree. */
  ghost predicate StatDetermines(plan: Plan, contentOf: Key -> Bytes) {
    forall p, now {:trigger MakeScoreMapKey(RelPath(plan.tree, p), Subtree(plan.tree, p).value.info, now)} ::
      Subtree(plan.tree, p).Some? ==>
        KeyOk(contentOf, Subtree(plan.tree, p).value, MakeScoreMapKey(RelPath(plan.tree, p), Subtree(plan.tree, p).value.info, now))
  }

  lemma StartKeeps(plan: Plan, contentOf: Key -> Bytes, w: World, p: Path, f: Fortune)
    requires plan.env.chunkSize >= 1 && CanAct(plan, w, p) && OwnOk(plan, contentOf, w, p) && w.StageOf(p).Starting?
    requires MapSound(plan.env, w.scoreMap, contentOf, w.state.bucket) && WellFormed(Subtree(plan.tree, p).value)
    requires KeyOk(contentOf, Subtree(plan.tree, p).value,
                   MakeScoreMapKey(RelPath(plan.tree, p), Subtree(plan.tree, p).value.info, f.now))
    ensures OwnOk(plan, contentOf, Act(plan, w, p, f), p)
  {
    var u := Subtree(plan.tree, p).value;
    FileTreeScores(plan.env, u);
    PrependNothing(FileScores(plan.env, u.content));
  }

  lemma ReadKeeps(plan: Plan, contentOf: Key -> Bytes, w: World, p: Path, f: Fortune)
    requires plan.env.chunkSize >= 1 && CanAct(plan, w, p) && OwnOk(plan, contentOf, w, p) && w.StageOf(p).Reading?
    ensures OwnOk(plan, contentOf, Act(plan, w, p, f), p)
  {
    var u, saved, rest := Subtree(plan.tree, p).value, w.StageOf(p).saved, w.StageOf(p).rest;
    if rest == [] {
      assert saved + [] == saved;
    } else {
      ReadOneChunk(plan.env, u, saved, rest);
    }
  }

  lemma GatherOneEntry(plan: Plan, contentOf: Key -> Bytes, w: World, p: Path, f: Fortune)
    requires plan.env.chunkSize >= 1 && CanAct(plan, w, p) && OwnOk(plan, contentOf, w, p) && w.StageOf(p).Gathering?
    requires ChildrenReady(plan, w, p, Subtree(plan.tree, p).value)
    requires |w.StageOf(p).entries| < |Subtree(plan.tree, p).value.children|
    ensures OwnOk(plan, contentOf, Act(plan, w, p, f), p)
  {
  }

  lemma ListingIsRight(env: Env, contentOf: Key -> Bytes, bucket: Bucket, u: Tree, entries: seq<FileInfo>)
    requires env.chunkSize >= 1 && u.info.typ == TYPE_DIRECTORY && |entries| == |u.children|
    requires forall k :: 0 <= k < |entries| ==> IsEntryOf(env, u.children[k], entries[k])
    requires MarshalledDir(env.wire, entries).Some?
    requires env.crypto.encrypt(MarshalledDir(env.wire, entries).value).Some?
    ensures SavingOk(env, contentOf, bucket, u, env.crypto.encrypt(MarshalledDir(env.wire, entries).value).value, ListingSaved)
  {
    EntriesFromChildren(env, u.children, entries);
  }

  lemma GatherKeeps(plan: Plan, contentOf: Key -> Bytes, w: World, p: Path, f: Fortune)
    requires plan.env.chunkSize >= 1 && CanAct(plan, w, p) && OwnOk(plan, contentOf, w, p) && w.StageOf(p).Gathering?
    requires ChildrenReady(plan, w, p, Subtree(plan.tree, p).value)
    ensures OwnOk(plan, contentOf, Act(plan, w, p, f), p)
  {
    var u, entries, env := Subtree(plan.tree, p).value, w.StageOf(p).entries, plan.env;
    if |entries| < |u.children| {
      GatherOneEntry(plan, contentOf, w, p, f);
    } else if MarshalledDir(env.wire, entries).Some? && env.crypto.encrypt(MarshalledDir(env.wire, entries).value).Some? {
      ListingIsRight(env, contentOf, w.state.bucket, u, entries);
    }
  }

  /** What becomes of a visit that creates an object. */
  lemma ActCreates(plan: Plan, w: World, p: Path, f: Fortune)
    requires CanAct(plan, w, p) && w.StageOf(p).Creating?
    ensures var w', ct := Act(plan, w, p, f), w.StageOf(p).ct;
      if f.creation == Stored then
        && w'.StageOf(p) == Adding(ct, w.StageOf(p).after)
        && w'.state.bucket == w.state.bucket[BlobName(plan.env.crypto.hash(ct)) := ct]
      else w'.StageOf(p) == GivenUp
  {
  }

  lemma CreateKeeps(plan: Plan, contentOf: Key -> Bytes, w: World, p: Path, f: Fortune)
    requires plan.env.chunkSize >= 1 && CanAct(plan, w, p) && OwnOk(plan, contentOf, w, p) && w.StageOf(p).Creating?
    ensures OwnOk(plan, contentOf, Act(plan, w, p, f), p)
  {
    ActCreates(plan, w, p, f);
    if f.creation == Stored {
      StageOkInMore(plan.env, contentOf, w.state.bucket, Act(plan, w, p, f).state.bucket,
                    Subtree(plan.tree, p).value, w.GivenTo(p), w.StageOf(p));
    }
  }

  lemma SavedKeeps(plan: Plan, contentOf: Key -> Bytes, w: World, p: Path, f: Fortune)
    requires plan.env.chunkSize >= 1 && CanAct(plan, w, p) && OwnOk(plan, contentOf, w, p)
    requires StoreSound(plan.env.crypto, w.state)
    requires w.StageOf(p).LookingUp? || w.StageOf(p).Adding?
    ensures OwnOk(plan, contentOf, Act(plan, w, p, f), p)
  {
    var u, ct, after := Subtree(plan.tree, p).value, w.StageOf(p).ct, w.StageOf(p).after;
    if BlobName(plan.env.crypto.hash(ct)) in w.state.bucket {
      AfterSavingKeeps(plan.env, contentOf, w.state.bucket, u, w.GivenTo(p), ct, after);
    }
  }

  lemma EndKeeps(plan: Plan, contentOf: Key -> Bytes, w: World, p: Path, f: Fortune)
    requires plan.env.chunkSize >= 1 && CanAct(plan, w, p) && OwnOk(plan, contentOf, w, p)
    requires WellFormed(Subtree(plan.tree, p).value)
    requires w.StageOf(p).Remembering? || w.StageOf(p).Giving? || w.StageOf(p).PassingOn?
    ensures OwnOk(plan, contentOf, Act(plan, w, p, f), p)
  {
    FileTreeScores(plan.env, Subtree(plan.tree, p).value);
  }

  lemma ActKeepsOwn(plan: Plan, contentOf: Key -> Bytes, w: World, p: Path, f: Fortune)
    requires plan.env.chunkSize >= 1 && StoreSound(plan.env.crypto, w.state)
    requires MapSound(plan.env, w.scoreMap, contentOf, w.state.bucket)
    requires CanAct(plan, w, p) && OwnOk(plan, contentOf, w, p) && WellFormed(Subtree(plan.tree, p).value)
    requires KeyOk(contentOf, Subtree(plan.tree, p).value,
                   MakeScoreMapKey(RelPath(plan.tree, p), Subtree(plan.tree, p).value.info, f.now))
    requires w.StageOf(p).Gathering? ==> ChildrenReady(plan, w, p, Subtree(plan.tree, p).value)
    ensures OwnOk(plan, contentOf, Act(plan, w, p, f), p)
  {
    match w.StageOf(p)
    case Starting => StartKeeps(plan, contentOf, w, p, f);
    case Reading(_, _, _) => ReadKeeps(plan, contentOf, w, p, f);
    case Gathering(_) => GatherKeeps(plan, contentOf, w, p, f);
    case LookingUp(_, _) => SavedKeeps(plan, contentOf, w, p, f);
    case Creating(_, _) => CreateKeeps(plan, contentOf, w, p, f);
    case Adding(_, _) => SavedKeeps(plan, contentOf, w, p, f);
    case _ => EndKeeps(plan, contentOf, w, p, f);
  }

  // ---- A visit gets through ----

  /** How many steps a visit can still take. */
  function WorkLeft(u: Tree, stage: Stage): int {
    match stage
    case Starting => 4 * |u.content| + |u.children| + 8
    case Reading(_, rest, _) => 4 * |rest| + 4
    case Gathering(entries) => |u.children| - |entries| + 7
    case LookingUp(_, after) => AfterWork(after) + 3
    case Creating(_, after) => AfterWork(after) + 2
    case Adding(_, after) => AfterWork(after) + 1
    case Remembering(_, _) => 3
    case Giving(_) => 2
    case PassingOn => 1
    case Complete => 0
    case GivenUp => 0
  }

  function AfterWork(after: After): int {
    match after
    case MoreChunks(_, rest, _) => 4 * |rest| + 4
    case ListingSaved => 3
  }

  lemma ReadProgresses(plan: Plan, w: World, p: Path, u: Tree, saved: seq<Score>, rest: Bytes, key: Option<Key>, ok: bool)
    requires plan.env.chunkSize >= 1
    ensures 0 <= WorkLeft(u, Read(plan, w, p, saved, rest, key, ok).StageOf(p)) < WorkLeft(u, Reading(saved, rest, key))
  {
  }

  lemma GatherProgresses(plan: Plan, w: World, p: Path, u: Tree, entries: seq<FileInfo>, ok: bool)
    requires |entries| <= |u.children|
    ensures 0 <= WorkLeft(u, Gather(plan, w, p, u, entries, ok).StageOf(p)) < WorkLeft(u, Gathering(entries))
  {
  }

  lemma CreateProgresses(plan: Plan, w: World, p: Path, u: Tree, ct: Bytes, after: After, creation: Creation)
    ensures 0 <= WorkLeft(u, Create(plan, w, p, ct, after, creation).StageOf(p)) < WorkLeft(u, Creating(ct, after))
  {
  }

  lemma StartProgresses(plan: Plan, w: World, p: Path, u: Tree, f: Fortune)
    ensures 0 <= WorkLeft(u, Start(plan, w, p, u, f).StageOf(p)) < WorkLeft(u, Starting)
  {
  }

  /** Every step, whatever its fortune, brings a visit nearer to its end. */
  lemma ActProgresses(plan: Plan, w: World, p: Path, f: Fortune)
    requires plan.env.chunkSize >= 1 && CanAct(plan, w, p)
    requires w.StageOf(p).Gathering? ==> |w.StageOf(p).entries| <= |Subtree(plan.tree, p).value.children|
    ensures var u := Subtree(plan.tree, p).value;
      0 <= WorkLeft(u, Act(plan, w, p, f).StageOf(p)) < WorkLeft(u, w.StageOf(p))
  {
    var u := Subtree(plan.tree, p).value;
    match w.StageOf(p)
    case Starting => StartProgresses(plan, w, p, u, f);
    case Reading(saved, rest, key) => ReadProgresses(plan, w, p, u, saved, rest, key, f.ok);
    case Gathering(entries) => GatherProgresses(plan, w, p, u, entries, f.ok);
    case Creating(ct, after) => CreateProgresses(plan, w, p, u, ct, after, f.creation);
    case _ =>
  }

  lemma ReadingGoesOn(plan: Plan, contentOf: Key -> Bytes, w: World, p: Path, f: Fortune)
    requires plan.env.chunkSize >= 1 && CanAct(plan, w, p) && OwnOk(plan, contentOf, w, p) && w.StageOf(p).Reading?
    requires WellFormed(Subtree(plan.tree, p).value) && TreeScores(plan.env, Subtree(plan.tree, p).value).Some? && f.ok
    ensures Act(plan, w, p, f).StageOf(p) != GivenUp
  {
    FileTreeScores(plan.env, Subtree(plan.tree, p).value);
    var rest := w.StageOf(p).rest;
    if rest != [] {
      ChunksHead(rest, plan.env.chunkSize);
    }
  }

  lemma GatheringGoesOn(plan: Plan, contentOf: Key -> Bytes, w: World, p: Path, f: Fortune)
    requires plan.env.chunkSize >= 1 && CanAct(plan, w, p) && OwnOk(plan, contentOf, w, p) && w.StageOf(p).Gathering?
    requires TreeScores(plan.env, Subtree(plan.tree, p).value).Some? && f.ok
    ensures Act(plan, w, p, f).StageOf(p) != GivenUp
  {
    var u, entries := Subtree(plan.tree, p).value, w.StageOf(p).entries;
    if |entries| == |u.children| {
      EntriesFromChildren(plan.env, u.children, entries);
    }
  }

  /**
   A visit of a node that has scores to be given, be it a file, a directory or a
   symlink, gives up only when something goes wrong for it: reading, waiting,
   passing on, or creating an object.
   */
  lemma GivesUpOnlyInMisfortune(plan: Plan, contentOf: Key -> Bytes, w: World, p: Path, f: Fortune)
    requires plan.env.chunkSize >= 1 && CanAct(plan, w, p) && OwnOk(plan, contentOf, w, p)
    requires WellFormed(Subtree(plan.tree, p).value) && TreeScores(plan.env, Subtree(plan.tree, p).value).Some?
    requires f.ok && f.creation == Stored
    ensures Act(plan, w, p, f).StageOf(p) != GivenUp
  {
    match w.StageOf(p)
    case Reading(_, _, _) => ReadingGoesOn(plan, contentOf, w, p, f);
    case Gathering(_) => GatheringGoesOn(plan, contentOf, w, p, f);
    case _ =>
  }

  /** What the caches are for: a hit in the score map spares reading the file, and a known score the creation of an object. */
  lemma CachesSpareWork(plan: Plan, w: World, p: Path, f: Fortune)
    requires plan.caches && CanAct(plan, w, p)
    ensures var (u, w') := (Subtree(plan.tree, p).value, Act(plan, w, p, f));
      && (w.StageOf(p) == Starting && u.info.typ == TYPE_FILE && p !in w.given ==>
            var key := MakeScoreMapKey(RelPath(plan.tree, p), u.info, f.now);
            key.Some? && key.value in w.scoreMap ==> w'.StageOf(p) == Giving(w.scoreMap[key.value]))
      && (w.StageOf(p).LookingUp? && Hex(plan.env.crypto.hash(w.StageOf(p).ct)) in w.state.known && f.ok ==>
            w'.state == w.state && !w'.StageOf(p).Creating? && w'.StageOf(p) != GivenUp)
  {
  }

  /** And how they come to have anything: a file saved is remembered, and an object created is known. */
  lemma CachesLearn(plan: Plan, w: World, p: Path, f: Fortune)
    requires CanAct(plan, w, p)
    ensures var (stage, w') := (w.StageOf(p), Act(plan, w, p, f));
      && (stage.Remembering? && stage.key.Some? ==> w'.scoreMap == w.scoreMap[stage.key.value := stage.found])
      && (stage.Adding? ==> Hex(plan.env.crypto.hash(stage.ct)) in w'.state.known)
  {
  }

  /** A creation that is not refused takes effect, whatever is reported of it; only one that succeeds lets the visit go on. */
  lemma CreatingIsExact(plan: Plan, w: World, p: Path, f: Fortune)
    requires CanAct(plan, w, p) && w.StageOf(p).Creating?
    ensures var (ct, w') := (w.StageOf(p).ct, Act(plan, w, p, f));
      && w'.state.bucket == (if f.creation == NotStored then w.state.bucket
                             else w.state.bucket[BlobName(plan.env.crypto.hash(ct)) := ct])
      && w'.state.known == w.state.known
      && (w'.StageOf(p) == if f.creation == Stored then Adding(ct, w.StageOf(p).after) else GivenUp)
  {
  }

  /** Nothing else that visits share changes in any step but that of creating an object. */
  lemma OnlyThenAreTheyChanged(plan: Plan, w: World, p: Path, f: Fortune)
    requires CanAct(plan, w, p)
    ensures !w.StageOf(p).Remembering? ==> Act(plan, w, p, f).scoreMap == w.scoreMap
    ensures !w.StageOf(p).Adding? && !w.StageOf(p).Creating? ==> Act(plan, w, p, f).state == w.state
  {
    match w.StageOf(p)
    case Reading(saved, rest, key) =>
      assert Read(plan, w, p, saved, rest, key, f.ok).state == w.state;
    case Gathering(entries) =>
      assert Gather(plan, w, p, Subtree(plan.tree, p).value, entries, f.ok).state == w.state;
    case _ =>
  }
}
