/**
 Saving as a traversal: whatever the schedule of the visitors, and whatever the
 caches hold and forget, every node that is visited has the scores defined by
 recursion over the tree, and what the caches name is stored.
 */
module SaveSchedule {
  import opened Wrappers
  import opened Scores
  import opened Times
  import opened Listing
  import opened Trees
  import opened Graphs
  import opened DagState
  import opened DagInvariant
  import opened DagTheorems
  import opened Moments
  import opened BlobStores
  import opened Save
  import opened Pruning
  import opened SaveVisits

  /** A visit takes its next step, or the score map forgets some of its entries. */
  datatype Turn = StepOf(node: Path, fortune: Fortune) | Forget(keys: set<Key>)

  ghost predicate TurnAt(plan: Plan, log: seq<Event<Path>>, turns: seq<Moment<Turn>>, worlds: seq<World>, i: nat)
    requires i < |turns| && |worlds| == |turns| + 1
  {
    var m, w := turns[i], worlds[i];
    && m.at <= Cut(log, turns, i + 1) <= |log|
    && match m.turn
       case StepOf(p, f) =>
         InVisit(log, m.at, p) && CanAct(plan, w, p) && worlds[i + 1] == Act(plan, w, p, f)
       case Forget(keys) =>
         worlds[i + 1] == w.(scoreMap := w.scoreMap - keys)
  }

  /** What is there when a save starts: objects, known scores and score map entries, in order. */
  ghost predicate GoodStart(plan: Plan, contentOf: Key -> Bytes, w: World)
    requires plan.env.chunkSize >= 1
  {
    && w.given == map[] && w.stages == map[]
    && StoreSound(plan.env.crypto, w.state)
    && MapSound(plan.env, w.scoreMap, contentOf, w.state.bucket)
  }

  /** The worlds that the turns go through. */
  ghost predicate Follows(plan: Plan, contentOf: Key -> Bytes, log: seq<Event<Path>>,
                          turns: seq<Moment<Turn>>, worlds: seq<World>)
    requires plan.env.chunkSize >= 1
  {
    && |worlds| == |turns| + 1
    && GoodStart(plan, contentOf, worlds[0])
    && forall i {:trigger TurnAt(plan, log, turns, worlds, i)} ::
         0 <= i < |turns| ==> TurnAt(plan, log, turns, worlds, i)
  }

  /** A visit that has returned successfully has taken all of its steps. */
  ghost predicate DoneIsComplete(log: seq<Event<Path>>, cut: nat, w: World)
    requires cut <= |log|
  {
    forall p :: Event(Visit, Done, p) in log[..cut] ==> w.StageOf(p) == Complete
  }

  ghost predicate ReturnsAreComplete(log: seq<Event<Path>>, turns: seq<Moment<Turn>>, worlds: seq<World>)
    requires |worlds| == |turns| + 1
  {
    forall i {:trigger Cut(log, turns, i)} :: 0 <= i <= |turns| && Cut(log, turns, i) <= |log| ==>
      DoneIsComplete(log, Cut(log, turns, i), worlds[i])
  }

  /** Visits taking their steps, each between its beginning and its end, among anything that the caches do. */
  ghost predicate IsSave(plan: Plan, contentOf: Key -> Bytes, log: seq<Event<Path>>,
                         turns: seq<Moment<Turn>>, worlds: seq<World>)
    requires plan.env.chunkSize >= 1
  {
    Follows(plan, contentOf, log, turns, worlds) && ReturnsAreComplete(log, turns, worlds)
  }

  // ---- The invariant ----

  ghost predicate AllOwn(plan: Plan, contentOf: Key -> Bytes, w: World)
    requires plan.env.chunkSize >= 1
  {
    forall p {:trigger w.StageOf(p)} :: p in w.stages ==>
      Subtree(plan.tree, p).Some? && OwnOk(plan, contentOf, w, p)
  }

  ghost predicate OnlyBegun(log: seq<Event<Path>>, cut: nat, w: World)
    requires cut <= |log|
  {
    && (forall p :: p in w.stages ==> Event(Visit, Began, p) in log[..cut])
    && (forall p :: p in w.given ==> p in w.stages)
  }

  ghost predicate Sound(plan: Plan, contentOf: Key -> Bytes, first: Bucket, log: seq<Event<Path>>, cut: nat, w: World)
    requires plan.env.chunkSize >= 1
  {
    && cut <= |log| && OnlyBegun(log, cut, w)
    && SharedOk(plan, contentOf, first, w.state, w.scoreMap)
    && AllOwn(plan, contentOf, w)
  }

  lemma DepIsDoneOnceBegun<N(!new)>(g: Graph<N>, log: seq<Event<N>>, j: nat, p: N, c: N)
    requires LogOk(g, log) && j <= |log| && c in g.deps(p) && Event(Visit, Began, p) in log[..j]
    ensures Event(Visit, Done, c) in log[..j]
  {
    var b :| 0 <= b < j && log[..j][b] == Event(Visit, Began, p);
    DirectOrder(g, log, b, p, c);
    assert log[..b] <= log[..j];
  }

  lemma CompleteIsRight(plan: Plan, contentOf: Key -> Bytes, w: World, p: Path)
    requires plan.env.chunkSize >= 1 && AllOwn(plan, contentOf, w) && w.StageOf(p) == Complete
    ensures Subtree(plan.tree, p).Some?
    ensures RightScores(plan.env, w.state.bucket, Subtree(plan.tree, p).value, w.ScoresAt(p))
  {
    assert p in w.stages;
    assert OwnOk(plan, contentOf, w, p);
  }

  /** While a directory is being visited its children have their scores. */
  lemma ChildrenAreReady(plan: Plan, contentOf: Key -> Bytes, log: seq<Event<Path>>, cut: nat, w: World, p: Path)
    requires plan.env.chunkSize >= 1 && cut <= |log| && LogOk(TreeGraph(plan.tree), log)
    requires AllOwn(plan, contentOf, w) && DoneIsComplete(log, cut, w)
    requires Event(Visit, Began, p) in log[..cut] && Subtree(plan.tree, p).Some?
    requires Subtree(plan.tree, p).value.info.typ == TYPE_DIRECTORY
    ensures ChildrenReady(plan, w, p, Subtree(plan.tree, p).value)
  {
    var u := Subtree(plan.tree, p).value;
    forall k | 0 <= k < |u.children|
      ensures TreeScores(plan.env, u.children[k]) == Some(w.ScoresAt(p + [k]))
    {
      ChildIsDep(plan.tree, p, u, k);
      DepIsDoneOnceBegun(TreeGraph(plan.tree), log, cut, p, p + [k]);
      CompleteIsRight(plan, contentOf, w, p + [k]);
    }
  }

  lemma StepKeepsOthers(plan: Plan, contentOf: Key -> Bytes, w: World, p: Path, f: Fortune, q: Path)
    requires plan.env.chunkSize >= 1 && CanAct(plan, w, p) && q != p && Subtree(plan.tree, q).Some?
    requires OwnOk(plan, contentOf, w, q) && w.state.bucket.Keys <= Act(plan, w, p, f).state.bucket.Keys
    ensures OwnOk(plan, contentOf, Act(plan, w, p, f), q)
  {
    var w' := Act(plan, w, p, f);
    assert OnlyOf(w, p, w');
    StageOkInMore(plan.env, contentOf, w.state.bucket, w'.state.bucket, Subtree(plan.tree, q).value,
                  w.GivenTo(q), w.StageOf(q));
  }

  lemma StepKeepsAllOwn(plan: Plan, contentOf: Key -> Bytes, w: World, p: Path, f: Fortune)
    requires plan.env.chunkSize >= 1 && AllOwn(plan, contentOf, w) && CanAct(plan, w, p)
    requires w.state.bucket.Keys <= Act(plan, w, p, f).state.bucket.Keys
    requires OwnOk(plan, contentOf, Act(plan, w, p, f), p)
    ensures AllOwn(plan, contentOf, Act(plan, w, p, f))
  {
    var w' := Act(plan, w, p, f);
    assert OnlyOf(w, p, w');
    forall q | q in w'.stages
      ensures Subtree(plan.tree, q).Some? && OwnOk(plan, contentOf, w', q)
    {
      if q != p {
        assert w.StageOf(q) == w'.StageOf(q) && q in w.stages;
        StepKeepsOthers(plan, contentOf, w, p, f, q);
      }
    }
  }

  /** What the visit of p has when it takes a step. */
  lemma ActorIsOk(plan: Plan, contentOf: Key -> Bytes, w: World, p: Path)
    requires plan.env.chunkSize >= 1 && AllOwn(plan, contentOf, w) && CanAct(plan, w, p)
    requires p in w.given ==> p in w.stages
    ensures OwnOk(plan, contentOf, w, p)
  {
    if p in w.stages {
      assert w.StageOf(p) == w.stages[p];
    }
  }

  lemma StatDeterminesKey(plan: Plan, contentOf: Key -> Bytes, p: Path, now: Time)
    requires StatDetermines(plan, contentOf) && Subtree(plan.tree, p).Some?
    ensures KeyOk(contentOf, Subtree(plan.tree, p).value,
                  MakeScoreMapKey(RelPath(plan.tree, p), Subtree(plan.tree, p).value.info, now))
  {
  }

  lemma StepKeepsSound(plan: Plan, contentOf: Key -> Bytes, first: Bucket, log: seq<Event<Path>>, cut: nat,
                       w: World, p: Path, f: Fortune)
    requires plan.env.chunkSize >= 1 && WellFormed(plan.tree) && StatDetermines(plan, contentOf)
    requires LogOk(TreeGraph(plan.tree), log) && Sound(plan, contentOf, first, log, cut, w)
    requires DoneIsComplete(log, cut, w) && InVisit(log, cut, p) && CanAct(plan, w, p)
    ensures Sound(plan, contentOf, first, log, cut, Act(plan, w, p, f))
  {
    ActorIsOk(plan, contentOf, w, p);
    SubtreeOfWellFormed(plan.tree, p);
    StatDeterminesKey(plan, contentOf, p, f.now);
    ActKeepsShared(plan, contentOf, first, w, p, f);
    if w.StageOf(p).Gathering? {
      ChildrenAreReady(plan, contentOf, log, cut, w, p);
    }
    ActKeepsOwn(plan, contentOf, w, p, f);
    StepKeepsAllOwn(plan, contentOf, w, p, f);
    assert OnlyOf(w, p, Act(plan, w, p, f));
  }

  lemma ForgettingKeepsSound(plan: Plan, contentOf: Key -> Bytes, first: Bucket, log: seq<Event<Path>>, cut: nat,
                             w: World, keys: set<Key>)
    requires plan.env.chunkSize >= 1 && Sound(plan, contentOf, first, log, cut, w)
    ensures Sound(plan, contentOf, first, log, cut, w.(scoreMap := w.scoreMap - keys))
  {
    var w' := w.(scoreMap := w.scoreMap - keys);
    forall q | q in w'.stages
      ensures Subtree(plan.tree, q).Some? && OwnOk(plan, contentOf, w', q)
    {
      assert w.StageOf(q) == w'.StageOf(q) && OwnOk(plan, contentOf, w, q);
    }
  }

  lemma SoundLater(plan: Plan, contentOf: Key -> Bytes, first: Bucket, log: seq<Event<Path>>, cut: nat, later: nat, w: World)
    requires plan.env.chunkSize >= 1 && Sound(plan, contentOf, first, log, cut, w) && cut <= later <= |log|
    ensures Sound(plan, contentOf, first, log, later, w)
  {
    assert log[..cut] <= log[..later];
  }

  lemma StartIsSound(plan: Plan, contentOf: Key -> Bytes, log: seq<Event<Path>>, cut: nat, w: World)
    requires plan.env.chunkSize >= 1 && GoodStart(plan, contentOf, w) && cut <= |log|
    ensures Sound(plan, contentOf, w.state.bucket, log, cut, w)
  {
  }

  lemma TurnKeepsSound(plan: Plan, contentOf: Key -> Bytes, first: Bucket, log: seq<Event<Path>>,
                       turns: seq<Moment<Turn>>, worlds: seq<World>, i: nat)
    requires plan.env.chunkSize >= 1 && WellFormed(plan.tree) && StatDetermines(plan, contentOf)
    requires LogOk(TreeGraph(plan.tree), log)
    requires i < |turns| && |worlds| == |turns| + 1 && TurnAt(plan, log, turns, worlds, i)
    requires Sound(plan, contentOf, first, log, turns[i].at, worlds[i]) && DoneIsComplete(log, turns[i].at, worlds[i])
    ensures Sound(plan, contentOf, first, log, Cut(log, turns, i + 1), worlds[i + 1])
  {
    var m := turns[i];
    match m.turn {
      case StepOf(p, f) =>
        StepKeepsSound(plan, contentOf, first, log, m.at, worlds[i], p, f);
      case Forget(keys) =>
        ForgettingKeepsSound(plan, contentOf, first, log, m.at, worlds[i], keys);
    }
    SoundLater(plan, contentOf, first, log, m.at, Cut(log, turns, i + 1), worlds[i + 1]);
  }

  lemma NextTurn(plan: Plan, contentOf: Key -> Bytes, log: seq<Event<Path>>, turns: seq<Moment<Turn>>, worlds: seq<World>, i: nat)
    requires plan.env.chunkSize >= 1 && IsSave(plan, contentOf, log, turns, worlds) && i < |turns|
    ensures TurnAt(plan, log, turns, worlds, i) && DoneIsComplete(log, turns[i].at, worlds[i])
  {
    assert TurnAt(plan, log, turns, worlds, i);
    assert Cut(log, turns, i) == turns[i].at;
  }

  lemma {:induction false} SaveKeepsSound(plan: Plan, contentOf: Key -> Bytes, log: seq<Event<Path>>,
                                          turns: seq<Moment<Turn>>, worlds: seq<World>, i: nat)
    requires plan.env.chunkSize >= 1 && WellFormed(plan.tree) && StatDetermines(plan, contentOf)
    requires LogOk(TreeGraph(plan.tree), log) && IsSave(plan, contentOf, log, turns, worlds)
    requires i <= |turns|
    ensures Sound(plan, contentOf, worlds[0].state.bucket, log, Cut(log, turns, i), worlds[i])
  {
    if i == 0 {
      if |turns| > 0 {
        NextTurn(plan, contentOf, log, turns, worlds, 0);
      }
      StartIsSound(plan, contentOf, log, Cut(log, turns, 0), worlds[0]);
    } else {
      SaveKeepsSound(plan, contentOf, log, turns, worlds, i - 1);
      NextTurn(plan, contentOf, log, turns, worlds, i - 1);
      TurnKeepsSound(plan, contentOf, worlds[0].state.bucket, log, turns, worlds, i - 1);
    }
  }

  // ---- What holds of every save ----

  /** The steps of a save whose traversal has reached the state s. */
  ghost predicate SaveOf(plan: Plan, contentOf: Key -> Bytes, s: Sys<Path>, turns: seq<Moment<Turn>>, worlds: seq<World>)
  {
    && plan.env.chunkSize >= 1 && WellFormed(plan.tree) && StatDetermines(plan, contentOf)
    && Reached(TreeGraph(plan.tree), [[]], s)
    && IsSave(plan, contentOf, s.log, turns, worlds)
  }

  lemma SaveOfIsSound(plan: Plan, contentOf: Key -> Bytes, s: Sys<Path>, turns: seq<Moment<Turn>>, worlds: seq<World>, i: nat)
    requires SaveOf(plan, contentOf, s, turns, worlds) && i <= |turns|
    ensures Sound(plan, contentOf, worlds[0].state.bucket, s.log, Cut(s.log, turns, i), worlds[i])
    ensures DoneIsComplete(s.log, Cut(s.log, turns, i), worlds[i])
  {
    ReachedLog(TreeGraph(plan.tree), [[]], s);
    SaveKeepsSound(plan, contentOf, s.log, turns, worlds, i);
  }

  /**
   However the visits interleave, whatever fails and whatever the score map
   forgets: at every moment each object is what its name says, each known score
   names an object, and each entry of the score map has the scores of the content
   that its key determines, all of them naming objects.
   */
  lemma CachesStaySound(plan: Plan, contentOf: Key -> Bytes, s: Sys<Path>, turns: seq<Moment<Turn>>, worlds: seq<World>, i: nat)
    requires SaveOf(plan, contentOf, s, turns, worlds) && i <= |turns|
    ensures StoreSound(plan.env.crypto, worlds[i].state)
    ensures MapSound(plan.env, worlds[i].scoreMap, contentOf, worlds[i].state.bucket)
  {
    SaveOfIsSound(plan, contentOf, s, turns, worlds, i);
  }

  /**
   At every moment each node visited has the scores defined by recursion over
   the tree, and they name objects; any other node with scores is one whose visit
   has begun.
   */
  lemma ScoresAreRight(plan: Plan, contentOf: Key -> Bytes, s: Sys<Path>, turns: seq<Moment<Turn>>, worlds: seq<World>,
                       i: nat, p: Path)
    requires SaveOf(plan, contentOf, s, turns, worlds) && i <= |turns|
    ensures Cut(s.log, turns, i) <= |s.log|
    ensures Event(Visit, Done, p) in s.log[..Cut(s.log, turns, i)] ==>
      && Subtree(plan.tree, p).Some?
      && RightScores(plan.env, worlds[i].state.bucket, Subtree(plan.tree, p).value, worlds[i].ScoresAt(p))
    ensures p in worlds[i].given ==> Event(Visit, Began, p) in s.log[..Cut(s.log, turns, i)]
  {
    SaveOfIsSound(plan, contentOf, s, turns, worlds, i);
    if Event(Visit, Done, p) in s.log[..Cut(s.log, turns, i)] {
      CompleteIsRight(plan, contentOf, worlds[i], p);
    }
  }

  /** When the traversal succeeds, every node of the tree has its scores. */
  lemma SuccessGivesAll(plan: Plan, contentOf: Key -> Bytes, s: Sys<Path>, turns: seq<Moment<Turn>>, worlds: seq<World>, p: Path)
    requires SaveOf(plan, contentOf, s, turns, worlds)
    requires Quiescent(TreeGraph(plan.tree), [[]], s) && VisitReturns(s, Finished)
    requires Subtree(plan.tree, p).Some?
    ensures RightScores(plan.env, worlds[|turns|].state.bucket, Subtree(plan.tree, p).value, worlds[|turns|].ScoresAt(p))
  {
    AllAreReachable(TreeGraph(plan.tree), plan.tree, p);
    SuccessLog(TreeGraph(plan.tree), [[]], s, Visit, p);
    assert s.log[..|s.log|] == s.log;
    ScoresAreRight(plan, contentOf, s, turns, worlds, |turns|, p);
  }

  /**
   When the traversal succeeds the root has the score defined by recursion over
   the tree: it does not depend on the schedule, nor on the caches.
   */
  lemma RootScoreIsScheduleIndependent(plan: Plan, contentOf: Key -> Bytes, s: Sys<Path>,
                                       turns: seq<Moment<Turn>>, worlds: seq<World>)
    requires SaveOf(plan, contentOf, s, turns, worlds)
    requires Quiescent(TreeGraph(plan.tree), [[]], s) && VisitReturns(s, Finished)
    ensures TreeScores(plan.env, plan.tree) == Some(worlds[|turns|].ScoresAt([]))
  {
    SuccessGivesAll(plan, contentOf, s, turns, worlds, []);
  }

  // ---- The root score as it is found ----

  ghost predicate NamesAreNonEmpty(t: Tree) {
    forall k :: 0 <= k < |t.children| ==> t.children[k].info.name != "" && NamesAreNonEmpty(t.children[k])
  }

  lemma {:induction false} OnlyRootHasNoPath(t: Tree, p: Path)
    requires NamesAreNonEmpty(t) && Subtree(t, p).Some?
    ensures NamesAreNonEmpty(Subtree(t, p).value)
    ensures RelPath(t, p) == "" <==> p == []
    decreases |p|
  {
    if p != [] {
      OnlyRootHasNoPath(t, p[..|p| - 1]);
    }
  }

  /** Nothing excluded is saved, nor anything below it. */
  lemma {:induction false} NothingExcludedIsSaved(excluded: string -> bool, t: Tree, p: Path) returns (u: Tree)
    requires Subtree(Pruned(excluded, "", t), p).Some?
    ensures var saved := Pruned(excluded, "", t);
      && Subtree(saved, p).value == Pruned(excluded, RelPath(saved, p), u)
      && (p != [] ==> !excluded(RelPath(saved, p)))
    decreases |p|
  {
    if p == [] {
      u := t;
    } else {
      var init, k, saved := p[..|p| - 1], p[|p| - 1], Pruned(excluded, "", t);
      var above := NothingExcludedIsSaved(excluded, t, init);
      PrunedChildren(excluded, RelPath(saved, init), above.children);
      u := Kept(excluded, RelPath(saved, init), above.children)[k];
    }
  }

  /**
   A save that succeeds saves all that is on disk but for what is excluded and
   what is below it: the node at q is the node p of what was saved, with right
   scores, those of the content on disk if it is a file.
   */
  lemma PrunedTreeIsSaved(plan: Plan, contentOf: Key -> Bytes, s: Sys<Path>, turns: seq<Moment<Turn>>, worlds: seq<World>,
                          excluded: string -> bool, t: Tree, q: Path)
    returns (p: Path)
    requires plan.tree == Pruned(excluded, "", t)
    requires plan.env.chunkSize >= 1 && StatDetermines(plan, contentOf) && IsSave(plan, contentOf, s.log, turns, worlds)
    requires Quiescent(TreeGraph(plan.tree), [[]], s) && VisitReturns(s, Finished)
    requires Subtree(t, q).Some? && NoneExcluded(excluded, t, q)
    ensures SameNode(t, q, plan.tree, p)
    ensures RightScores(plan.env, worlds[|turns|].state.bucket, Subtree(plan.tree, p).value, worlds[|turns|].ScoresAt(p))
    ensures Subtree(t, q).value.info.typ == TYPE_FILE ==>
      FileScores(plan.env, Subtree(t, q).value.content) == Some(worlds[|turns|].ScoresAt(p))
  {
    PrunedIsWellFormed(excluded, "", t);
    p := NodeIsKept(excluded, t, q);
    SuccessGivesAll(plan, contentOf, s, turns, worlds, p);
  }

  function PassedNodes(t: Tree, w: World, order: seq<Path>): seq<Passed> {
    seq(|order|, i requires 0 <= i < |order| => Passed(RelPath(t, order[i]), w.ScoresAt(order[i])))
  }

  lemma RootPassedOnce(t: Tree, w: World, order: seq<Path>, i: nat)
    requires NamesAreNonEmpty(t) && NoDuplicates(order) && i < |order| && order[i] == []
    requires forall j :: 0 <= j < |order| ==> Subtree(t, order[j]).Some?
    ensures OnlyRoot(PassedNodes(t, w, order), i)
    ensures PassedNodes(t, w, order)[i].scores == w.ScoresAt([])
  {
    var nodes := PassedNodes(t, w, order);
    forall j | 0 <= j < |nodes|
      ensures nodes[j].relPath == "" <==> j == i
    {
      OnlyRootHasNoPath(t, order[j]);
    }
  }

  /**
   In whatever order the nodes of the tree are passed on, the one root among
   them has a single score, the one defined by recursion: so it is what
   FindRootScore returns.
   */
  lemma RootScoreIsFound(plan: Plan, contentOf: Key -> Bytes, s: Sys<Path>, turns: seq<Moment<Turn>>, worlds: seq<World>,
                         order: seq<Path>)
    returns (i: nat)
    requires SaveOf(plan, contentOf, s, turns, worlds)
    requires NamesAreNonEmpty(plan.tree) && plan.tree.info.typ == TYPE_DIRECTORY
    requires Quiescent(TreeGraph(plan.tree), [[]], s) && VisitReturns(s, Finished)
    requires NoDuplicates(order) && forall p :: p in order <==> Subtree(plan.tree, p).Some?
    ensures var nodes := PassedNodes(plan.tree, worlds[|turns|], order);
      && OnlyRoot(nodes, i) && |nodes[i].scores| == 1
      && TreeScores(plan.env, plan.tree) == Some(nodes[i].scores)
  {
    RootScoreIsScheduleIndependent(plan, contentOf, s, turns, worlds);
    var root: Path := [];
    assert root in order;
    i :| 0 <= i < |order| && order[i] == [];
    RootPassedOnce(plan.tree, worlds[|turns|], order, i);
  }
}
