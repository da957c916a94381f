/** Trees of files, and their nodes as a traversal sees them (internal/fs, the node types of save and restore). */
module Trees {
  import opened Wrappers
  import opened Scores
  import opened Listing
  import opened Graphs

  /** What is on disk below a path: content for files, children for directories. */
  datatype Tree = Tree(info: FileInfo, content: Bytes, children: seq<Tree>)

  function Concat(parts: seq<Bytes>): Bytes {
    if parts == [] then [] else parts[0] + Concat(parts[1..])
  }

  lemma {:induction false} ConcatAppend(parts: seq<Bytes>, part: Bytes)
    ensures Concat(parts + [part]) == Concat(parts) + part
  {
    if parts != [] {
      ConcatAppend(parts[1..], part);
      assert (parts + [part])[1..] == parts[1..] + [part];
    }
  }

  /** A node of the traversal: the positions to follow down from the root. */
  type Path = seq<nat>

  function Subtree(t: Tree, p: Path): Option<Tree>
    decreases |p|
  {
    if p == [] then Some(t)
    else
      match Subtree(t, p[..|p| - 1])
      case None => None
      case Some(u) =>
        var k := p[|p| - 1];
        if u.info.typ == TYPE_DIRECTORY && k < |u.children| then Some(u.children[k]) else None
  }

  function ChildPaths(t: Tree, p: Path): seq<Path> {
    match Subtree(t, p)
    case None => []
    case Some(u) => if u.info.typ == TYPE_DIRECTORY then seq(|u.children|, k => p + [k]) else []
  }

  /** Only directories have children. */
  ghost predicate WellFormed(t: Tree) {
    && (t.info.typ != TYPE_DIRECTORY ==> t.children == [])
    && forall k :: 0 <= k < |t.children| ==> WellFormed(t.children[k])
  }

  function TreeGraph(t: Tree): Graph<Path> {
    Graph(p => ChildPaths(t, p), _ => true, _ => true)
  }

  lemma SubtreeOfWellFormed(t: Tree, p: Path)
    requires WellFormed(t) && Subtree(t, p).Some?
    ensures WellFormed(Subtree(t, p).value)
    decreases |p|
  {
    if p != [] {
      SubtreeOfWellFormed(t, p[..|p| - 1]);
    }
  }

  lemma ChildIsDep(t: Tree, p: Path, u: Tree, k: nat)
    requires Subtree(t, p) == Some(u) && u.info.typ == TYPE_DIRECTORY && k < |u.children|
    ensures p + [k] in ChildPaths(t, p) && Subtree(t, p + [k]) == Some(u.children[k])
  {
    assert ChildPaths(t, p)[k] == p + [k];
    assert (p + [k])[..|p|] == p;
  }

  /** The dependencies are those of the tree's graph. */
  ghost predicate IsGraphOf(g: Graph<Path>, t: Tree) {
    forall p {:trigger g.deps(p)} :: g.deps(p) == ChildPaths(t, p)
  }

  lemma {:induction false} AllAreReachable(g: Graph<Path>, t: Tree, p: Path)
    requires IsGraphOf(g, t) && Subtree(t, p).Some?
    ensures Reachable(g, [[]], p)
    decreases |p|
  {
    if p == [] {
      ReachesSelf(g, p);
      assert p in [p];
    } else {
      var k := |p| - 1;
      AllAreReachable(g, t, p[..k]);
      assert p == p[..k] + [p[k]];
      ChildIsDep(t, p[..k], Subtree(t, p[..k]).value, p[k]);
      ReachableStep(g, [[]], p[..k], p);
    }
  }

  // ---- Names ----

  /** A path from the root down, name by name. */
  type Name = seq<string>

  function NameOf(t: Tree, p: Path): (name: Name)
    requires Subtree(t, p).Some?
    ensures |name| == |p|
    decreases |p|
  {
    if p == [] then [] else NameOf(t, p[..|p| - 1]) + [Subtree(t, p).value.info.name]
  }

  ghost predicate DistinctNames(t: Tree) {
    && (forall i, j :: 0 <= i < j < |t.children| ==> t.children[i].info.name != t.children[j].info.name)
    && (forall k :: 0 <= k < |t.children| ==> DistinctNames(t.children[k]))
  }

  lemma SubtreeIsDistinct(t: Tree, p: Path)
    requires DistinctNames(t) && Subtree(t, p).Some?
    ensures DistinctNames(Subtree(t, p).value)
    decreases |p|
  {
    if p != [] {
      SubtreeIsDistinct(t, p[..|p| - 1]);
    }
  }

  lemma {:induction false} NamesAreUnique(t: Tree, p: Path, p': Path)
    requires DistinctNames(t) && Subtree(t, p).Some? && Subtree(t, p').Some?
    requires NameOf(t, p) == NameOf(t, p')
    ensures p == p'
    decreases |p|
  {
    if p != [] {
      var init, init' := p[..|p| - 1], p'[..|p'| - 1];
      assert NameOf(t, init) == NameOf(t, p)[..|p| - 1] && NameOf(t, init') == NameOf(t, p')[..|p'| - 1];
      NamesAreUnique(t, init, init');
      SubtreeIsDistinct(t, init);
      assert NameOf(t, p)[|p| - 1] == NameOf(t, p')[|p'| - 1];
      assert p == init + [p[|p| - 1]] && p' == init' + [p'[|p'| - 1]];
    }
  }

  lemma {:induction false} AncestorName(t: Tree, p: Path, j: nat)
    requires Subtree(t, p).Some? && j <= |p|
    ensures Subtree(t, p[..j]).Some? && NameOf(t, p[..j]) == NameOf(t, p)[..j]
    ensures j < |p| ==> Subtree(t, p[..j]).value.info.typ == TYPE_DIRECTORY
    decreases |p|
  {
    if j < |p| {
      var init := p[..|p| - 1];
      AncestorName(t, init, j);
      assert init[..j] == p[..j];
      if j == |p| - 1 {
        assert p[..j] == init;
      }
    } else {
      assert p[..j] == p;
    }
  }
}
