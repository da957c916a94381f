/**
 The file system while a tree is restored (internal/restore/visitor.go): many
 visits at once, each a series of operations, and what they leave behind.
 */
module RestoreOrder {
  import opened Wrappers
  import opened Scores
  import opened Times
  import opened Modes
  import opened Timevals
  import opened Listing
  import opened Trees
  import opened Graphs
  import opened DagState
  import opened DagInvariant
  import opened DagTheorems
  import opened Moments

  // ---- The file system ----

  datatype Entry = Entry(typ: TypeCode, content: Bytes, target: string, mode: nat, mtime: Time)

  type FileSystem = map<Name, Entry>

  datatype Op =
    | Mkdir(name: Name)
    | Create(name: Name)
    | Symlink(name: Name, target: string)
    | Write(name: Name, data: Bytes)
    | Chmod(name: Name, mode: nat)
    | Chtimes(name: Name, mtime: Time, superuser: bool)

  predicate IsDirectory(fs: FileSystem, name: Name) {
    name in fs && fs[name].typ == TYPE_DIRECTORY
  }

  function Parent(name: Name): Name
    requires name != []
  {
    name[..|name| - 1]
  }

  /** Times are set through a descriptor open for reading, which takes the permission to read or being the superuser. */
  predicate Succeeds(fs: FileSystem, op: Op) {
    match op
    case Mkdir(name) =>
      if name in fs then fs[name].typ == TYPE_DIRECTORY else name == [] || IsDirectory(fs, Parent(name))
    case Create(name) => name !in fs && (name == [] || IsDirectory(fs, Parent(name)))
    case Symlink(name, _) => name !in fs && (name == [] || IsDirectory(fs, Parent(name)))
    case Write(name, _) => name in fs && fs[name].typ == TYPE_FILE
    case Chmod(name, _) => name in fs
    case Chtimes(name, _, superuser) => name in fs && (superuser || OwnerReads(fs[name].mode))
  }

  /** Adding a name to a directory modifies the directory. */
  function Add(fs: FileSystem, name: Name, entry: Entry): FileSystem {
    if name == [] || Parent(name) !in fs then fs[name := entry]
    else fs[Parent(name) := fs[Parent(name)].(mtime := entry.mtime)][name := entry]
  }

  const NEW_DIR_MODE := 0x1C0
  const NEW_FILE_MODE := 0x100
  const NEW_SYMLINK_MODE := 0x1FF

  function Perform(fs: FileSystem, op: Op, now: Time): FileSystem
    requires Succeeds(fs, op)
  {
    match op
    case Mkdir(name) =>
      if name in fs then fs else Add(fs, name, Entry(TYPE_DIRECTORY, [], "", NEW_DIR_MODE, now))
    case Create(name) => Add(fs, name, Entry(TYPE_FILE, [], "", NEW_FILE_MODE, now))
    case Symlink(name, target) => Add(fs, name, Entry(TYPE_SYMLINK, [], target, NEW_SYMLINK_MODE, now))
    case Write(name, data) => fs[name := fs[name].(content := fs[name].content + data, mtime := now)]
    case Chmod(name, mode) => fs[name := fs[name].(mode := mode)]
    case Chtimes(name, mtime, _) => fs[name := fs[name].(mtime := mtime)]
  }

  // ---- A visit ----

  /**
   Leading(j): j of the leading directories are known to exist. Made(j): the
   node itself exists, with j pieces of its content written.
   */
  datatype Stage = Leading(made: nat) | Made(written: nat) | Chmodded | Complete

  /** The tree to restore, the pieces in which the content of its files is loaded, and whether the superuser restores it. */
  datatype Plan = Plan(tree: Tree, pieces: Path -> seq<Bytes>, superuser: bool)

  function MakeOp(info: FileInfo, name: Name): Option<Op> {
    if info.typ == TYPE_FILE then Some(Create(name))
    else if info.typ == TYPE_DIRECTORY then Some(Mkdir(name))
    else if info.typ == TYPE_SYMLINK then Some(Symlink(name, info.target))
    else None
  }

  function NextOp(plan: Plan, p: Path, stage: Stage): Option<Op>
    requires Subtree(plan.tree, p).Some?
  {
    var info, name := Subtree(plan.tree, p).value.info, NameOf(plan.tree, p);
    match stage
    case Leading(j) => if j < |name| then Some(Mkdir(name[..j])) else MakeOp(info, name)
    case Made(j) =>
      if j < |plan.pieces(p)| then Some(Write(name, plan.pieces(p)[j])) else Some(Chmod(name, SystemMode(info.permissions)))
    case Chmodded => Some(Chtimes(name, TimeSet(info.mtime), plan.superuser))
    case Complete => None
  }

  function NextStage(plan: Plan, p: Path, stage: Stage): Stage {
    match stage
    case Leading(j) => if j < |p| then Leading(j + 1) else Made(0)
    case Made(j) => if j < |plan.pieces(p)| then Made(j + 1) else Chmodded
    case Chmodded => Complete
    case Complete => Complete
  }

  // ---- Concurrent visits ----

  datatype World = World(fs: FileSystem, stages: map<Path, Stage>)
  {
    function StageOf(p: Path): Stage {
      if p in stages then stages[p] else Leading(0)
    }
  }

  predicate CanMove(plan: Plan, w: World, p: Path) {
    Subtree(plan.tree, p).Some? && NextOp(plan, p, w.StageOf(p)).Some?
  }

  function Moved(plan: Plan, w: World, p: Path, now: Time): World
    requires CanMove(plan, w, p) && Succeeds(w.fs, NextOp(plan, p, w.StageOf(p)).value)
  {
    World(Perform(w.fs, NextOp(plan, p, w.StageOf(p)).value, now),
          w.stages[p := NextStage(plan, p, w.StageOf(p))])
  }

  /** The visit of `node` performs its next operation, at time `now`. */
  datatype Turn = Turn(node: Path, now: Time)

  type Move = Moment<Turn>

  ghost predicate MoveAt(plan: Plan, log: seq<Event<Path>>, moves: seq<Move>, worlds: seq<World>, i: nat)
    requires i < |moves| && |worlds| == |moves| + 1
  {
    var m, w := moves[i], worlds[i];
    && m.at <= Cut(log, moves, i + 1) <= |log|
    && InVisit(log, m.at, m.turn.node)
    && CanMove(plan, w, m.turn.node)
    && Succeeds(w.fs, NextOp(plan, m.turn.node, w.StageOf(m.turn.node)).value)
    && worlds[i + 1] == Moved(plan, w, m.turn.node, m.turn.now)
  }

  /** A visit that has returned successfully has performed all of its operations. */
  ghost predicate DoneIsComplete(log: seq<Event<Path>>, cut: nat, w: World)
    requires cut <= |log|
  {
    forall p :: Event(Visit, Done, p) in log[..cut] ==> w.StageOf(p) == Complete
  }

  /** The base directory exists, and what is in it with the name of something to restore is a directory, as that is. */
  ghost predicate RoomFor(plan: Plan, fs: FileSystem) {
    && IsDirectory(fs, []) && plan.tree.info.typ == TYPE_DIRECTORY
    && forall p :: Subtree(plan.tree, p).Some? && NameOf(plan.tree, p) in fs ==>
         && Subtree(plan.tree, p).value.info.typ == TYPE_DIRECTORY
         && fs[NameOf(plan.tree, p)].typ == TYPE_DIRECTORY
  }

  /** The worlds that the moves go through. */
  ghost predicate Follows(plan: Plan, log: seq<Event<Path>>, moves: seq<Move>, worlds: seq<World>) {
    && |worlds| == |moves| + 1
    && worlds[0].stages == map[] && RoomFor(plan, worlds[0].fs)
    && (forall i {:trigger MoveAt(plan, log, moves, worlds, i)} ::
          0 <= i < |moves| ==> MoveAt(plan, log, moves, worlds, i))
  }

  ghost predicate ReturnsAreComplete(log: seq<Event<Path>>, moves: seq<Move>, worlds: seq<World>)
    requires |worlds| == |moves| + 1
  {
    forall i {:trigger Cut(log, moves, i)} :: 0 <= i <= |moves| && Cut(log, moves, i) <= |log| ==>
      DoneIsComplete(log, Cut(log, moves, i), worlds[i])
  }

  /** Visits performing their operations, each between its beginning and its end. */
  ghost predicate IsRestore(plan: Plan, log: seq<Event<Path>>, moves: seq<Move>, worlds: seq<World>) {
    Follows(plan, log, moves, worlds) && ReturnsAreComplete(log, moves, worlds)
  }

  /** The pieces of a file are its content. */
  ghost predicate PiecesOk(plan: Plan) {
    && (forall p :: Subtree(plan.tree, p).Some? ==> Concat(plan.pieces(p)) == Subtree(plan.tree, p).value.content)
    && (forall p :: Subtree(plan.tree, p).Some? && Subtree(plan.tree, p).value.info.typ != TYPE_FILE ==>
          plan.pieces(p) == [])
  }

  ghost predicate PlanOk(plan: Plan) {
    DistinctNames(plan.tree) && PiecesOk(plan)
  }

  // ---- What every operation keeps ----

  predicate MadeOk(e: Entry, info: FileInfo, content: Bytes) {
    && e.typ == info.typ
    && (info.typ == TYPE_FILE ==> e.content == content)
    && (info.typ == TYPE_SYMLINK ==> e.target == info.target)
  }

  /** The entry is what the tree says: type, content, target, mode and time. */
  predicate Restored(e: Entry, u: Tree) {
    && MadeOk(e, u.info, u.content)
    && e.mode == SystemMode(u.info.permissions)
    && e.mtime == TimeSet(u.info.mtime)
  }

  /** Whoever restores may open the node for reading once it has its own mode. */
  predicate TimeCanBeSet(plan: Plan, p: Path)
    requires Subtree(plan.tree, p).Some?
  {
    plan.superuser || OwnerReads(Subtree(plan.tree, p).value.info.permissions)
  }

  ghost predicate EntryOk(plan: Plan, w: World, p: Path)
    requires Subtree(plan.tree, p).Some?
  {
    var u, name, fs := Subtree(plan.tree, p).value, NameOf(plan.tree, p), w.fs;
    match w.StageOf(p)
    case Leading(j) =>
      && j <= |p|
      && (forall i :: 0 <= i < j ==> name[..i] in fs)
      && (name in fs ==> fs[name].typ == TYPE_DIRECTORY && u.info.typ == TYPE_DIRECTORY)
    case Made(j) =>
      && j <= |plan.pieces(p)|
      && (forall i :: 0 <= i <= |p| ==> name[..i] in fs)
      && name in fs && MadeOk(fs[name], u.info, Concat(plan.pieces(p)[..j]))
    case Chmodded =>
      name in fs && MadeOk(fs[name], u.info, u.content) && fs[name].mode == SystemMode(u.info.permissions)
    case Complete =>
      name in fs && Restored(fs[name], u) && TimeCanBeSet(plan, p)
  }

  ghost predicate AllOk(plan: Plan, w: World) {
    forall p {:trigger EntryOk(plan, w, p)} :: Subtree(plan.tree, p).Some? ==> EntryOk(plan, w, p)
  }

  /** The visits of the directories above p have not begun. */
  predicate NoneAboveStarted(w: World, p: Path) {
    forall j :: 0 <= j < |p| ==> p[..j] !in w.stages
  }

  lemma DirectoryEntry(plan: Plan, w: World, p: Path)
    requires AllOk(plan, w) && Subtree(plan.tree, p).Some?
    requires Subtree(plan.tree, p).value.info.typ == TYPE_DIRECTORY && NameOf(plan.tree, p) in w.fs
    ensures IsDirectory(w.fs, NameOf(plan.tree, p))
  {
    assert EntryOk(plan, w, p);
  }

  /** No operation of a restore fails for what the other visits have done, but setting a time can for the mode just set. */
  lemma OperationsSucceed(plan: Plan, w: World, p: Path)
    requires PlanOk(plan) && AllOk(plan, w) && CanMove(plan, w, p)
    requires IsDirectory(w.fs, [])
    ensures Succeeds(w.fs, NextOp(plan, p, w.StageOf(p)).value) <==> w.StageOf(p) != Chmodded || TimeCanBeSet(plan, p)
  {
    assert EntryOk(plan, w, p);
    OwnerStillReads(Subtree(plan.tree, p).value.info.permissions);
    var name, stage := NameOf(plan.tree, p), w.StageOf(p);
    if stage.Leading? {
      var j := stage.made;
      AncestorName(plan.tree, p, j);
      assert name[..|name|] == name;
      if name[..j] in w.fs && j < |p| {
        DirectoryEntry(plan, w, p[..j]);
      }
      if j > 0 {
        AncestorName(plan.tree, p, j - 1);
        assert name[..j - 1] in w.fs;
        DirectoryEntry(plan, w, p[..j - 1]);
        assert Parent(name[..j]) == name[..j - 1];
      }
    }
  }

  /** An operation leaves alone everything but its target and the time of the directory it is in. */
  lemma OperationEffect(fs: FileSystem, op: Op, now: Time, name: Name)
    requires Succeeds(fs, op)
    ensures var fs' := Perform(fs, op, now);
      && op.name in fs'
      && (name in fs ==> name in fs')
      && (name != op.name ==>
            && (name in fs' ==> name in fs && fs'[name] == fs[name].(mtime := fs'[name].mtime))
            && (op.name == [] || name != Parent(op.name) ==> name in fs' ==> fs'[name] == fs[name]))
      && (op.name !in fs && op.name != [] && Parent(op.name) in fs ==> fs'[Parent(op.name)].mtime == now)
  {
  }

  /** What an operation makes of its target. */
  lemma TargetEffect(fs: FileSystem, op: Op, now: Time)
    requires Succeeds(fs, op)
    ensures var e := Perform(fs, op, now)[op.name];
      match op
      case Mkdir(name) => if name in fs then e == fs[name] else e == Entry(TYPE_DIRECTORY, [], "", 0x1C0, now)
      case Create(name) => name !in fs && e == Entry(TYPE_FILE, [], "", 0x100, now)
      case Symlink(name, target) => name !in fs && e.typ == TYPE_SYMLINK && e.target == target && e.mtime == now
      case Write(name, data) => e == fs[name].(content := fs[name].content + data, mtime := now)
      case Chmod(name, mode) => e == fs[name].(mode := mode)
      case Chtimes(name, mtime, _) => e == fs[name].(mtime := mtime)
  {
  }

  lemma TargetIsPrefix(plan: Plan, p: Path, stage: Stage) returns (j: nat)
    requires Subtree(plan.tree, p).Some? && NextOp(plan, p, stage).Some?
    requires stage.Leading? ==> stage.made <= |p|
    ensures j <= |p| && NextOp(plan, p, stage).value.name == NameOf(plan.tree, p)[..j]
    ensures j < |p| ==> NextOp(plan, p, stage).value.Mkdir?
  {
    j := if stage.Leading? then stage.made else |p|;
    assert NameOf(plan.tree, p)[..|p|] == NameOf(plan.tree, p);
  }

  lemma PrefixName(t: Tree, p: Path, q: Path, j: nat)
    requires DistinctNames(t) && Subtree(t, p).Some? && Subtree(t, q).Some? && j <= |p|
    requires NameOf(t, q) == NameOf(t, p)[..j]
    ensures q == p[..j]
  {
    AncestorName(t, p, j);
    NamesAreUnique(t, q, p[..j]);
  }

  lemma NamesStay(plan: Plan, w: World, p: Path, now: Time, name: Name)
    requires CanMove(plan, w, p) && Succeeds(w.fs, NextOp(plan, p, w.StageOf(p)).value)
    requires name in w.fs
    ensures name in Moved(plan, w, p, now).fs
  {
    OperationEffect(w.fs, NextOp(plan, p, w.StageOf(p)).value, now, name);
  }

  /** The operation has this name for its target, or adds something to the directory of this name. */
  predicate Touches(op: Op, name: Name) {
    name == op.name || (op.name != [] && name == Parent(op.name))
  }

  lemma PrefixIsAbove(t: Tree, p: Path, q: Path, k: nat)
    requires DistinctNames(t) && Subtree(t, p).Some? && Subtree(t, q).Some? && k <= |p| && q != p
    requires NameOf(t, q) == NameOf(t, p)[..k]
    ensures k < |p| && |q| == k && q == p[..k] && Subtree(t, q).value.info.typ == TYPE_DIRECTORY
  {
    PrefixName(t, p, q, k);
    AncestorName(t, p, k);
    assert p[..|p|] == p;
  }

  /** What a visit touches, other than its own node, is a directory above it. */
  lemma TouchesAbove(plan: Plan, p: Path, stage: Stage, q: Path)
    requires Subtree(plan.tree, p).Some? && NextOp(plan, p, stage).Some? && DistinctNames(plan.tree)
    requires stage.Leading? ==> stage.made <= |p|
    requires Subtree(plan.tree, q).Some? && q != p
    requires Touches(NextOp(plan, p, stage).value, NameOf(plan.tree, q))
    ensures Subtree(plan.tree, q).value.info.typ == TYPE_DIRECTORY
    ensures |q| < |p| && q == p[..|q|]
    ensures NameOf(plan.tree, q) == NextOp(plan, p, stage).value.name ==> NextOp(plan, p, stage).value.Mkdir?
  {
    var target := NextOp(plan, p, stage).value.name;
    var j := TargetIsPrefix(plan, p, stage);
    if NameOf(plan.tree, q) == target {
      PrefixIsAbove(plan.tree, p, q, j);
    } else {
      ParentOfPrefix(NameOf(plan.tree, p), j);
      PrefixIsAbove(plan.tree, p, q, j - 1);
    }
  }

  lemma ParentOfPrefix(name: Name, j: nat)
    requires 0 < j <= |name|
    ensures Parent(name[..j]) == name[..j - 1]
  {
  }

  lemma TouchedStaysDirectory(fs: FileSystem, op: Op, now: Time, name: Name)
    requires Succeeds(fs, op)
    requires name in fs ==> fs[name].typ == TYPE_DIRECTORY
    requires name == op.name ==> op.Mkdir?
    ensures name in Perform(fs, op, now) ==> Perform(fs, op, now)[name].typ == TYPE_DIRECTORY
  {
  }

  lemma OthersKeepTheirEntries(plan: Plan, w: World, p: Path, q: Path, now: Time)
    requires CanMove(plan, w, p) && Succeeds(w.fs, NextOp(plan, p, w.StageOf(p)).value)
    requires Subtree(plan.tree, q).Some? && q != p && NoneAboveStarted(w, p)
    requires DistinctNames(plan.tree) && EntryOk(plan, w, p) && EntryOk(plan, w, q)
    ensures EntryOk(plan, Moved(plan, w, p, now), q)
  {
    var op, name := NextOp(plan, p, w.StageOf(p)).value, NameOf(plan.tree, q);
    if Touches(op, name) {
      TouchesAbove(plan, p, w.StageOf(p), q);
      TouchedStaysDirectory(w.fs, op, now, name);
    } else {
      forall i | 0 <= i <= |q| && name[..i] in w.fs
        ensures name[..i] in Moved(plan, w, p, now).fs
      {
        NamesStay(plan, w, p, now, name[..i]);
      }
      OperationEffect(w.fs, op, now, name);
    }
  }

  lemma MakingProgresses(plan: Plan, w: World, p: Path, now: Time)
    requires CanMove(plan, w, p) && Succeeds(w.fs, NextOp(plan, p, w.StageOf(p)).value)
    requires w.StageOf(p).Leading? && EntryOk(plan, w, p)
    ensures EntryOk(plan, Moved(plan, w, p, now), p)
  {
    var name, k := NameOf(plan.tree, p), w.StageOf(p).made;
    forall i | 0 <= i <= |p| && name[..i] in w.fs
      ensures name[..i] in Moved(plan, w, p, now).fs
    {
      NamesStay(plan, w, p, now, name[..i]);
    }
    assert name[..|p|] == name;
    OperationEffect(w.fs, NextOp(plan, p, w.StageOf(p)).value, now, name);
    assert plan.pieces(p)[..0] == [];
  }

  lemma WritingProgresses(plan: Plan, w: World, p: Path, now: Time)
    requires CanMove(plan, w, p) && Succeeds(w.fs, NextOp(plan, p, w.StageOf(p)).value)
    requires w.StageOf(p).Made? && PiecesOk(plan) && EntryOk(plan, w, p)
    ensures EntryOk(plan, Moved(plan, w, p, now), p)
  {
    var name, pieces, k := NameOf(plan.tree, p), plan.pieces(p), w.StageOf(p).written;
    forall i | 0 <= i <= |p|
      ensures name[..i] in Moved(plan, w, p, now).fs
    {
      NamesStay(plan, w, p, now, name[..i]);
    }
    if k < |pieces| {
      ConcatAppend(pieces[..k], pieces[k]);
      assert pieces[..k + 1] == pieces[..k] + [pieces[k]];
    } else {
      assert pieces[..k] == pieces;
    }
  }

  lemma OwnEntryProgresses(plan: Plan, w: World, p: Path, now: Time)
    requires CanMove(plan, w, p) && Succeeds(w.fs, NextOp(plan, p, w.StageOf(p)).value)
    requires PlanOk(plan) && EntryOk(plan, w, p)
    ensures EntryOk(plan, Moved(plan, w, p, now), p)
  {
    match w.StageOf(p)
    case Leading(_) => MakingProgresses(plan, w, p, now);
    case Made(_) => WritingProgresses(plan, w, p, now);
    case Chmodded => OwnerStillReads(Subtree(plan.tree, p).value.info.permissions);
  }

  /** What each visit has reached stays true whatever the others do below it. */
  lemma MoveKeepsEntries(plan: Plan, w: World, p: Path, now: Time)
    requires PlanOk(plan) && AllOk(plan, w)
    requires CanMove(plan, w, p) && Succeeds(w.fs, NextOp(plan, p, w.StageOf(p)).value)
    requires NoneAboveStarted(w, p)
    ensures AllOk(plan, Moved(plan, w, p, now))
  {
    forall q | Subtree(plan.tree, q).Some?
      ensures EntryOk(plan, Moved(plan, w, p, now), q)
    {
      assert EntryOk(plan, w, p) && EntryOk(plan, w, q);
      if q == p {
        OwnEntryProgresses(plan, w, p, now);
      } else {
        OthersKeepTheirEntries(plan, w, p, q, now);
      }
    }
  }

  // ---- Whole restores ----

  lemma PathDown(t: Tree, p: Path, j: nat) returns (down: seq<Path>)
    requires Subtree(t, p).Some? && j < |p|
    ensures |down| >= 2 && PathBetween(TreeGraph(t), down, p[..j], p)
  {
    down := seq(|p| - j + 1, k requires 0 <= k < |p| - j + 1 => p[..j + k]);
    forall k | 0 <= k < |down| - 1
      ensures down[k + 1] in TreeGraph(t).deps(down[k])
    {
      AncestorName(t, p, j + k);
      AncestorName(t, p, j + k + 1);
      assert p[..j + k + 1] == p[..j + k] + [p[j + k]];
      assert p[..j + k + 1][..j + k] == p[..j + k];
      ChildIsDep(t, p[..j + k], Subtree(t, p[..j + k]).value, p[j + k]);
    }
    assert p[..|p|] == p;
  }

  ghost predicate StartedHaveBegun(log: seq<Event<Path>>, cut: nat, w: World)
    requires cut <= |log|
  {
    forall p :: p in w.stages ==> Event(Visit, Began, p) in log[..cut]
  }

  lemma BelowIsDoneFirst(t: Tree, log: seq<Event<Path>>, cut: nat, p: Path, j: nat)
    requires LogOk(TreeGraph(t), log) && cut <= |log|
    requires Subtree(t, p).Some? && j < |p| && Event(Visit, Began, p[..j]) in log[..cut]
    ensures Event(Visit, Done, p) in log[..cut]
  {
    var b :| 0 <= b < cut && log[..cut][b] == Event(Visit, Began, p[..j]);
    var down := PathDown(t, p, j);
    PathOrder(TreeGraph(t), log, b, down);
    assert log[..b] <= log[..cut];
  }

  /** While a visit is in progress, those of the directories above it have not begun. */
  lemma NoneAboveHasBegun(t: Tree, log: seq<Event<Path>>, cut: nat, w: World, p: Path)
    requires LogOk(TreeGraph(t), log) && cut <= |log| && StartedHaveBegun(log, cut, w)
    requires Subtree(t, p).Some? && Event(Visit, Done, p) !in log[..cut]
    ensures NoneAboveStarted(w, p)
  {
    forall j | 0 <= j < |p|
      ensures p[..j] !in w.stages
    {
      if p[..j] in w.stages {
        BelowIsDoneFirst(t, log, cut, p, j);
      }
    }
  }

  /** How many operations a visit still has to perform. */
  function OperationsLeft(plan: Plan, p: Path, stage: Stage): int {
    match stage
    case Leading(j) => |p| - j + |plan.pieces(p)| + 3
    case Made(j) => |plan.pieces(p)| - j + 2
    case Chmodded => 1
    case Complete => 0
  }

  /**
   A visit of a file, a directory or a symlink has a next operation until it has
   performed as many as there are names and pieces, and three more; a visit of
   anything else stops short of making it.
   */
  lemma VisitGoesOn(plan: Plan, w: World, p: Path)
    requires Subtree(plan.tree, p).Some? && EntryOk(plan, w, p)
    ensures CanMove(plan, w, p) <==>
      && w.StageOf(p) != Complete
      && (w.StageOf(p) == Leading(|p|) ==> Subtree(plan.tree, p).value.info.typ in {TYPE_FILE, TYPE_DIRECTORY, TYPE_SYMLINK})
    ensures CanMove(plan, w, p) ==>
      OperationsLeft(plan, p, NextStage(plan, p, w.StageOf(p))) == OperationsLeft(plan, p, w.StageOf(p)) - 1
    ensures OperationsLeft(plan, p, w.StageOf(p)) == 0 <==> w.StageOf(p) == Complete
  {
  }

  lemma NothingRestoredYet(plan: Plan, w: World)
    requires w.stages == map[] && RoomFor(plan, w.fs)
    ensures AllOk(plan, w)
  {
  }

  ghost predicate Sound(plan: Plan, log: seq<Event<Path>>, cut: nat, w: World) {
    && cut <= |log| && StartedHaveBegun(log, cut, w)
    && AllOk(plan, w) && IsDirectory(w.fs, [])
  }

  lemma MoveKeepsSound(plan: Plan, log: seq<Event<Path>>, moves: seq<Move>, worlds: seq<World>, i: nat)
    requires PlanOk(plan) && LogOk(TreeGraph(plan.tree), log)
    requires i < |moves| && |worlds| == |moves| + 1 && MoveAt(plan, log, moves, worlds, i)
    requires Sound(plan, log, Cut(log, moves, i), worlds[i])
    ensures Sound(plan, log, Cut(log, moves, i + 1), worlds[i + 1])
  {
    var m, w := moves[i], worlds[i];
    NoneAboveHasBegun(plan.tree, log, m.at, w, m.turn.node);
    MoveKeepsEntries(plan, w, m.turn.node, m.turn.now);
    DirectoryStays(w.fs, NextOp(plan, m.turn.node, w.StageOf(m.turn.node)).value, m.turn.now, []);
    assert log[..m.at] <= log[..Cut(log, moves, i + 1)];
  }

  lemma DirectoryStays(fs: FileSystem, op: Op, now: Time, name: Name)
    requires Succeeds(fs, op) && IsDirectory(fs, name)
    ensures IsDirectory(Perform(fs, op, now), name)
  {
  }

  lemma NextMove(plan: Plan, log: seq<Event<Path>>, moves: seq<Move>, worlds: seq<World>, i: nat)
    requires Follows(plan, log, moves, worlds) && i < |moves|
    ensures MoveAt(plan, log, moves, worlds, i)
  {
  }

  lemma StartIsSound(plan: Plan, log: seq<Event<Path>>, moves: seq<Move>, worlds: seq<World>)
    requires Follows(plan, log, moves, worlds)
    ensures Sound(plan, log, Cut(log, moves, 0), worlds[0])
  {
    NothingRestoredYet(plan, worlds[0]);
    if |moves| > 0 {
      assert MoveAt(plan, log, moves, worlds, 0);
    }
  }

  lemma {:induction false} RestoreKeepsSound(plan: Plan, log: seq<Event<Path>>, moves: seq<Move>,
                                             worlds: seq<World>, i: nat)
    requires PlanOk(plan) && LogOk(TreeGraph(plan.tree), log) && Follows(plan, log, moves, worlds)
    requires i <= |moves|
    ensures Sound(plan, log, Cut(log, moves, i), worlds[i])
  {
    if i == 0 {
      StartIsSound(plan, log, moves, worlds);
    } else {
      RestoreKeepsSound(plan, log, moves, worlds, i - 1);
      NextMove(plan, log, moves, worlds, i - 1);
      MoveKeepsSound(plan, log, moves, worlds, i - 1);
    }
  }

  /**
   However the visits of a restore interleave, what has been visited has, at
   every later moment, the content, target, permissions and modification time
   that the tree gives it: nothing is written into a directory after its own
   permissions and time have been set. And its mode let the time be set.
   */
  lemma VisitedStaysRestored(plan: Plan, log: seq<Event<Path>>, moves: seq<Move>, worlds: seq<World>,
                             i: nat, p: Path)
    requires PlanOk(plan) && LogOk(TreeGraph(plan.tree), log) && IsRestore(plan, log, moves, worlds)
    requires i <= |moves| && Cut(log, moves, i) <= |log| && Event(Visit, Done, p) in log[..Cut(log, moves, i)]
    requires Subtree(plan.tree, p).Some?
    ensures NameOf(plan.tree, p) in worlds[i].fs
    ensures Restored(worlds[i].fs[NameOf(plan.tree, p)], Subtree(plan.tree, p).value)
    ensures TimeCanBeSet(plan, p)
  {
    RestoreKeepsSound(plan, log, moves, worlds, i);
    assert EntryOk(plan, worlds[i], p);
    assert DoneIsComplete(log, Cut(log, moves, i), worlds[i]);
  }

  lemma SameDepsSameLogs(g: Graph<Path>, g': Graph<Path>, log: seq<Event<Path>>)
    requires LogOk(g, log) && forall p :: g'.deps(p) == g.deps(p)
    ensures LogOk(g', log)
  {
    forall i | 0 <= i < |log|
      ensures Justified(g', log[..i], log[i])
    {
      assert Justified(g, log[..i], log[i]);
    }
  }

  lemma SuccessVisitsAll(g: Graph<Path>, t: Tree, s: Sys<Path>, p: Path)
    requires IsGraphOf(g, t) && Subtree(t, p).Some?
    requires Quiescent(g, [[]], s) && VisitReturns(s, Finished)
    ensures LogOk(TreeGraph(t), s.log) && Event(Visit, Done, p) in s.log
  {
    ReachedLog(g, [[]], s);
    SameDepsSameLogs(g, TreeGraph(t), s.log);
    AllAreReachable(g, t, p);
    SuccessLog(g, [[]], s, Visit, p);
  }

  lemma VisitedEndsRestored(plan: Plan, log: seq<Event<Path>>, moves: seq<Move>, worlds: seq<World>, p: Path)
    requires PlanOk(plan) && LogOk(TreeGraph(plan.tree), log) && IsRestore(plan, log, moves, worlds)
    requires Event(Visit, Done, p) in log && Subtree(plan.tree, p).Some?
    ensures NameOf(plan.tree, p) in worlds[|moves|].fs
    ensures Restored(worlds[|moves|].fs[NameOf(plan.tree, p)], Subtree(plan.tree, p).value)
    ensures TimeCanBeSet(plan, p)
  {
    assert log[..|log|] == log;
    VisitedStaysRestored(plan, log, moves, worlds, |moves|, p);
  }

  /**
   When the traversal succeeds the whole tree is in the file system, entry for
   entry; for anyone but the superuser it can succeed only if all modes let the
   owner read.
   */
  lemma SuccessRestoresAll(g: Graph<Path>, plan: Plan, s: Sys<Path>, moves: seq<Move>, worlds: seq<World>, p: Path)
    requires PlanOk(plan) && IsRestore(plan, s.log, moves, worlds)
    requires IsGraphOf(g, plan.tree) && Quiescent(g, [[]], s) && VisitReturns(s, Finished)
    requires Subtree(plan.tree, p).Some?
    ensures NameOf(plan.tree, p) in worlds[|moves|].fs
    ensures Restored(worlds[|moves|].fs[NameOf(plan.tree, p)], Subtree(plan.tree, p).value)
    ensures TimeCanBeSet(plan, p)
  {
    SuccessVisitsAll(g, plan.tree, s, p);
    VisitedEndsRestored(plan, s.log, moves, worlds, p);
  }

  /**
   At any moment, the next operation of any visit would succeed, whatever other
   visits have done, but for one case: setting the time of a node whose own mode,
   just set, does not let it be opened for reading.
   */
  lemma NextOperationSucceeds(plan: Plan, log: seq<Event<Path>>, moves: seq<Move>, worlds: seq<World>, i: nat, p: Path)
    requires PlanOk(plan) && LogOk(TreeGraph(plan.tree), log) && Follows(plan, log, moves, worlds)
    requires i <= |moves| && CanMove(plan, worlds[i], p)
    ensures Succeeds(worlds[i].fs, NextOp(plan, p, worlds[i].StageOf(p)).value)
       <==> worlds[i].StageOf(p) != Chmodded || TimeCanBeSet(plan, p)
  {
    RestoreKeepsSound(plan, log, moves, worlds, i);
    OperationsSucceed(plan, worlds[i], p);
  }

  // ---- What else is in the base directory ----

  ghost predicate IsName(t: Tree, name: Name) {
    exists p {:trigger Subtree(t, p)} :: Subtree(t, p).Some? && NameOf(t, p) == name
  }

  predicate SameAt(fs: FileSystem, fs': FileSystem, name: Name) {
    (name in fs <==> name in fs') && (name in fs ==> fs'[name] == fs[name])
  }

  lemma MoveLeavesTheRest(plan: Plan, w: World, p: Path, now: Time, name: Name)
    requires CanMove(plan, w, p) && Succeeds(w.fs, NextOp(plan, p, w.StageOf(p)).value)
    requires EntryOk(plan, w, p) && !IsName(plan.tree, name)
    ensures SameAt(w.fs, Moved(plan, w, p, now).fs, name)
  {
    var op := NextOp(plan, p, w.StageOf(p)).value;
    var j := TargetIsPrefix(plan, p, w.StageOf(p));
    AncestorName(plan.tree, p, j);
    OperationEffect(w.fs, op, now, name);
    if op.name != [] {
      AncestorName(plan.tree, p, j - 1);
      assert Parent(op.name) == NameOf(plan.tree, p)[..j - 1];
    }
  }

  lemma MoveAtLeavesTheRest(plan: Plan, log: seq<Event<Path>>, moves: seq<Move>, worlds: seq<World>,
                            i: nat, name: Name)
    requires i < |moves| && |worlds| == |moves| + 1 && MoveAt(plan, log, moves, worlds, i)
    requires AllOk(plan, worlds[i]) && !IsName(plan.tree, name)
    ensures SameAt(worlds[i].fs, worlds[i + 1].fs, name)
  {
    assert EntryOk(plan, worlds[i], moves[i].turn.node);
    MoveLeavesTheRest(plan, worlds[i], moves[i].turn.node, moves[i].turn.now, name);
  }

  /** Whatever does not have the name of something in the tree is as it was before. */
  lemma {:induction false} TheRestIsUntouched(plan: Plan, log: seq<Event<Path>>, moves: seq<Move>,
                                              worlds: seq<World>, i: nat, name: Name)
    requires PlanOk(plan) && LogOk(TreeGraph(plan.tree), log) && Follows(plan, log, moves, worlds)
    requires i <= |moves| && !IsName(plan.tree, name)
    ensures SameAt(worlds[0].fs, worlds[i].fs, name)
  {
    if i > 0 {
      NextMove(plan, log, moves, worlds, i - 1);
      TheRestIsUntouched(plan, log, moves, worlds, i - 1, name);
      MoveAtLeavesTheRest(plan, log, moves, worlds, i - 1, name) by {
        RestoreKeepsSound(plan, log, moves, worlds, i - 1);
      }
    }
  }
}
