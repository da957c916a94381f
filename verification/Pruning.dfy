/** What exclusions leave of a tree (internal/save/dependency_resolver.go), in terms of the tree as it is on disk. */
module Pruning {
  import opened Wrappers
  import opened Listing
  import opened Trees
  import opened Save

  /** Neither the path of the node nor any path above it, but for the root's, is excluded. */
  ghost predicate NoneExcluded(excluded: string -> bool, t: Tree, q: Path) {
    forall j :: 0 < j <= |q| ==> !excluded(RelPath(t, q[..j]))
  }

  /** The two nodes have the same place, by name, and there is the same there: type, attributes and content. */
  ghost predicate SameNode(t: Tree, q: Path, t': Tree, p: Path) {
    && Subtree(t, q).Some? && Subtree(t', p).Some?
    && NameOf(t', p) == NameOf(t, q) && RelPath(t', p) == RelPath(t, q)
    && Subtree(t', p).value.info == Subtree(t, q).value.info
    && Subtree(t', p).value.content == Subtree(t, q).value.content
  }

  lemma {:induction false} KeptFrom(excluded: string -> bool, relPath: string, listing: seq<Tree>, j: nat) returns (k: nat)
    requires j < |Kept(excluded, relPath, listing)|
    ensures k < |listing| && listing[k] == Kept(excluded, relPath, listing)[j]
  {
    var last := |listing| - 1;
    k := last;
    if j < |Kept(excluded, relPath, listing[..last])| {
      k := KeptFrom(excluded, relPath, listing[..last], j);
    }
  }

  /** The child of two nodes that stand for each other. */
  lemma SameChild(t: Tree, q: Path, k: nat, t': Tree, p: Path, j: nat)
    requires SameNode(t, q, t', p)
    requires Subtree(t, q + [k]).Some? && Subtree(t', p + [j]).Some?
    requires Subtree(t, q + [k]).value.info == Subtree(t', p + [j]).value.info
    requires Subtree(t, q + [k]).value.content == Subtree(t', p + [j]).value.content
    ensures SameNode(t, q + [k], t', p + [j])
  {
    assert (q + [k])[..|q|] == q && (p + [j])[..|p|] == p;
  }

  /** Every node that is not excluded, nor anything above it, is in the tree that is saved, with all it has. */
  lemma {:induction false} NodeIsKept(excluded: string -> bool, t: Tree, q: Path) returns (p: Path)
    requires Subtree(t, q).Some? && NoneExcluded(excluded, t, q)
    ensures var saved := Pruned(excluded, "", t);
      && SameNode(t, q, saved, p)
      && Subtree(saved, p).value == Pruned(excluded, RelPath(t, q), Subtree(t, q).value)
    decreases |q|
  {
    var saved := Pruned(excluded, "", t);
    if q == [] {
      p := [];
    } else {
      var above, k := q[..|q| - 1], q[|q| - 1];
      assert q == above + [k] && q[..|q|] == q;
      assert forall j :: 0 < j <= |above| ==> above[..j] == q[..j];
      p := NodeIsKept(excluded, t, above);
      var u := Subtree(t, above).value;
      KeptEarlier(excluded, RelPath(t, above), u.children, k);
      PrunedChildren(excluded, RelPath(t, above), u.children);
      var j :| 0 <= j < |Kept(excluded, RelPath(t, above), u.children)|
            && Kept(excluded, RelPath(t, above), u.children)[j] == u.children[k];
      ChildIsDep(saved, p, Subtree(saved, p).value, j);
      SameChild(t, above, k, saved, p, j);
      p := p + [j];
    }
  }

  /** And nothing else is: every node saved is one of those. */
  lemma {:induction false} NodeWasThere(excluded: string -> bool, t: Tree, p: Path) returns (q: Path)
    requires Subtree(Pruned(excluded, "", t), p).Some?
    ensures var saved := Pruned(excluded, "", t);
      && SameNode(t, q, saved, p) && NoneExcluded(excluded, t, q)
      && Subtree(saved, p).value == Pruned(excluded, RelPath(t, q), Subtree(t, q).value)
    decreases |p|
  {
    var saved := Pruned(excluded, "", t);
    if p == [] {
      q := [];
    } else {
      var above, j := p[..|p| - 1], p[|p| - 1];
      assert p == above + [j];
      var up := NodeWasThere(excluded, t, above);
      var u := Subtree(t, up).value;
      PrunedChildren(excluded, RelPath(t, up), u.children);
      var k := KeptFrom(excluded, RelPath(t, up), u.children, j);
      ChildIsDep(t, up, u, k);
      q := up + [k];
      SameChild(t, up, k, saved, above, j);
      forall i | 0 < i <= |q|
        ensures !excluded(RelPath(t, q[..i]))
      {
        if i < |q| {
          assert q[..i] == up[..i];
        } else {
          assert q[..i] == q && q[..|q| - 1] == up;
        }
      }
    }
  }

  // ---- Names ----

  lemma {:induction false} KeptAreListed(excluded: string -> bool, relPath: string, ts: seq<Tree>, u: Tree)
    requires u in Kept(excluded, relPath, ts)
    ensures exists i :: 0 <= i < |ts| && ts[i] == u
  {
    var last := |ts| - 1;
    assert u == ts[last] || u in Kept(excluded, relPath, ts[..last]);
    if u in Kept(excluded, relPath, ts[..last]) {
      KeptAreListed(excluded, relPath, ts[..last], u);
      var i :| 0 <= i < last && ts[..last][i] == u;
      assert ts[i] == u;
    }
  }

  lemma {:induction false} KeptAreDistinct(excluded: string -> bool, relPath: string, ts: seq<Tree>)
    requires forall i, j :: 0 <= i < j < |ts| ==> ts[i].info.name != ts[j].info.name
    ensures var kept := Kept(excluded, relPath, ts);
      forall i, j :: 0 <= i < j < |kept| ==> kept[i].info.name != kept[j].info.name
  {
    if ts != [] {
      var last := |ts| - 1;
      var init := ts[..last];
      var kept := Kept(excluded, relPath, init);
      assert forall i :: 0 <= i < last ==> init[i] == ts[i];
      KeptAreDistinct(excluded, relPath, init);
      forall j | 0 <= j < |kept|
        ensures kept[j].info.name != ts[last].info.name
      {
        KeptAreListed(excluded, relPath, init, kept[j]);
      }
      var all := Kept(excluded, relPath, ts);
      forall i, j | 0 <= i < j < |all|
        ensures all[i].info.name != all[j].info.name
      {
        assert all[i] == kept[i];
        assert j < |kept| ==> all[j] == kept[j];
      }
    }
  }

  lemma {:induction false} PrunedIsDistinct(excluded: string -> bool, relPath: string, t: Tree)
    requires DistinctNames(t)
    ensures DistinctNames(Pruned(excluded, relPath, t))
    decreases t
  {
    if t.info.typ == TYPE_DIRECTORY {
      KeptAreDistinct(excluded, relPath, t.children);
      PrunedChildren(excluded, relPath, t.children);
      var kept := Kept(excluded, relPath, t.children);
      forall k | 0 <= k < |kept|
        ensures DistinctNames(Pruned(excluded, Join(relPath, kept[k].info.name), kept[k]))
      {
        KeptAreListed(excluded, relPath, t.children, kept[k]);
        PrunedIsDistinct(excluded, Join(relPath, kept[k].info.name), kept[k]);
      }
    }
  }
}
