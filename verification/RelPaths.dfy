/**
 Relative paths (internal/save): the names from the root down with slashes
 between them, by which exclusions match and the score map tells files apart.
 */
module RelPaths {
  import opened Wrappers
  import opened Times
  import opened Scores
  import opened Listing
  import opened Trees
  import opened Save
  import opened SaveVisits

  const SLASH := '/'

  function Slashed(name: Name): string {
    if name == [] then "" else if |name| == 1 then name[0] else name[0] + [SLASH] + Slashed(name[1..])
  }

  /** What a file system allows as a name. */
  predicate IsFileName(s: string) {
    s != "" && SLASH !in s
  }

  predicate AreFileNames(name: Name) {
    forall i :: 0 <= i < |name| ==> IsFileName(name[i])
  }

  ghost predicate HasFileNames(t: Tree) {
    forall k :: 0 <= k < |t.children| ==> IsFileName(t.children[k].info.name) && HasFileNames(t.children[k])
  }

  lemma {:induction false} SlashedMore(name: Name, last: string)
    requires AreFileNames(name)
    ensures Slashed(name + [last]) == Join(Slashed(name), last)
    ensures name != [] ==> Slashed(name) != ""
  {
    if |name| > 1 {
      SlashedMore(name[1..], last);
      assert (name + [last])[1..] == name[1..] + [last];
    }
  }

  lemma {:induction false} NamesBelow(t: Tree, p: Path)
    requires HasFileNames(t) && Subtree(t, p).Some?
    ensures HasFileNames(Subtree(t, p).value) && AreFileNames(NameOf(t, p))
    decreases |p|
  {
    if p != [] {
      NamesBelow(t, p[..|p| - 1]);
    }
  }

  /** The relative path of a node is the names on the way down to it, with slashes between. */
  lemma {:induction false} RelPathIsSlashed(t: Tree, p: Path)
    requires HasFileNames(t) && Subtree(t, p).Some?
    ensures RelPath(t, p) == Slashed(NameOf(t, p))
    decreases |p|
  {
    if p != [] {
      var above := p[..|p| - 1];
      RelPathIsSlashed(t, above);
      NamesBelow(t, above);
      SlashedMore(NameOf(t, above), Subtree(t, p).value.info.name);
    }
  }

  /** Texts are split at the first slash in one way only. */
  lemma {:induction false} SplitAtSlash(a: string, x: string, b: string, y: string)
    requires SLASH !in a && SLASH !in b && a + [SLASH] + x == b + [SLASH] + y
    ensures a == b && x == y
  {
    var s, s' := a + [SLASH] + x, b + [SLASH] + y;
    assert s[0] == if a == "" then SLASH else a[0];
    assert s'[0] == if b == "" then SLASH else b[0];
    assert s[1..] == if a == "" then x else a[1..] + [SLASH] + x;
    assert s'[1..] == if b == "" then y else b[1..] + [SLASH] + y;
    if a != "" && b != "" {
      SplitAtSlash(a[1..], x, b[1..], y);
      assert a == [a[0]] + a[1..] && b == [b[0]] + b[1..];
    }
  }

  lemma {:induction false} SlashedIsInjective(a: Name, b: Name)
    requires AreFileNames(a) && AreFileNames(b) && Slashed(a) == Slashed(b)
    ensures a == b
  {
    if a == [] || b == [] {
      FirstOfSlashed(a);
      FirstOfSlashed(b);
    } else if |a| > 1 && |b| > 1 {
      SplitAtSlash(a[0], Slashed(a[1..]), b[0], Slashed(b[1..]));
      SlashedIsInjective(a[1..], b[1..]);
      assert a == [a[0]] + a[1..] && b == [b[0]] + b[1..];
    } else {
      FirstOfSlashed(a);
      FirstOfSlashed(b);
    }
  }

  lemma FirstOfSlashed(a: Name)
    requires AreFileNames(a)
    ensures Slashed(a) == "" <==> a == []
    ensures |a| > 1 ==> SLASH in Slashed(a)
    ensures |a| == 1 ==> SLASH !in Slashed(a) && Slashed(a) == a[0]
  {
    if |a| > 1 {
      assert Slashed(a)[|a[0]|] == SLASH;
    }
  }

  /** No two nodes of a tree have the same relative path. */
  lemma RelPathIsInjective(t: Tree, p: Path, p': Path)
    requires HasFileNames(t) && DistinctNames(t) && Subtree(t, p).Some? && Subtree(t, p').Some?
    requires RelPath(t, p) == RelPath(t, p')
    ensures p == p'
  {
    RelPathIsSlashed(t, p);
    RelPathIsSlashed(t, p');
    NamesBelow(t, p);
    NamesBelow(t, p');
    SlashedIsInjective(NameOf(t, p), NameOf(t, p'));
    NamesAreUnique(t, p, p');
  }

  // ---- Keys of different files ----

  /** The content of the node with the path, if there is one. */
  ghost function ContentAt(t: Tree, path: string): Bytes {
    if p :| Subtree(t, p).Some? && RelPath(t, p) == path then Subtree(t, p).value.content else []
  }

  /**
   What is asked of the score map key when a tree is saved can be met: in a tree
   whose nodes have distinct names, keys tell files apart.
   */
  lemma KeysTellFilesApart(plan: Plan) returns (contentOf: Key -> Bytes)
    requires HasFileNames(plan.tree) && DistinctNames(plan.tree)
    ensures StatDetermines(plan, contentOf)
  {
    contentOf := (k: Key) => ContentAt(plan.tree, k.path);
    forall p, now | Subtree(plan.tree, p).Some?
      ensures KeyOk(contentOf, Subtree(plan.tree, p).value,
                    MakeScoreMapKey(RelPath(plan.tree, p), Subtree(plan.tree, p).value.info, now))
    {
      var p' :| Subtree(plan.tree, p').Some? && RelPath(plan.tree, p') == RelPath(plan.tree, p)
             && ContentAt(plan.tree, RelPath(plan.tree, p)) == Subtree(plan.tree, p').value.content;
      RelPathIsInjective(plan.tree, p, p');
    }
  }
}
