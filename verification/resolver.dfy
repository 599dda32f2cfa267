/** Path resolution against the snapshot tree, as `FileMap::get_file_ref` does it. */
module Resolver {
  import opened Io
  import opened Paths
  import opened FileTree

  /** Descends from `node` through `segs` in order: a file in the way is NotADirectory,
      a segment missing from a directory is NotFound. Segments are looked up literally,
      the empty one included. */
  function Walk(node: Node, segs: seq<string>): (r: Result<Node>)
    decreases segs
    ensures r.Failure? ==> r.error == NotFound || r.error == NotADirectory
  {
    if segs == [] then Success(node)
    else
      match node.children
      case None => Failure(NotADirectory)
      case Some(children) =>
        if segs[0] in children then Walk(children[segs[0]], segs[1..]) else Failure(NotFound)
  }

  /** `get_file_ref`: a path that splits into a single segment (no '/' at all) is answered
      with the root without any lookup; every other path is walked segment by segment. */
  function Resolve(root: Node, path: string): (r: Result<Node>)
    ensures r.Failure? ==> r.error == NotFound || r.error == NotADirectory
    ensures r.Success? && root.children.None? ==> r.value == root
  {
    var segs := Split(path);
    if |segs| > 1 then Walk(root, segs) else Success(root)
  }

  /** Walking a concatenation is walking the first part, then the second from where it ended. */
  lemma {:induction false} WalkAppend(node: Node, a: seq<string>, b: seq<string>)
    ensures Walk(node, a + b) == (match Walk(node, a)
                                  case Success(mid) => Walk(mid, b)
                                  case Failure(e) => Failure(e))
    decreases a
  {
    if a == [] {
      assert a + b == b;
    } else {
      assert (a + b)[0] == a[0] && (a + b)[1..] == a[1..] + b;
      match node.children
      case None =>
      case Some(children) =>
        if a[0] in children {
          WalkAppend(children[a[0]], a[1..], b);
        }
    }
  }

  /** Having reached a file after some segments, one more segment is NotADirectory. */
  lemma StepIntoFile(root: Node, segs: seq<string>, i: nat)
    requires i < |segs|
    requires Walk(root, segs[..i]).Success? && Walk(root, segs[..i]).value.children.None?
    ensures Walk(root, segs) == Failure(NotADirectory)
  {
    WalkAppend(root, segs[..i], segs[i..]);
    assert segs[..i] + segs[i..] == segs;
  }

  /** Having reached a directory after some segments, a next segment it lacks is NotFound. */
  lemma StepIntoMissing(root: Node, segs: seq<string>, i: nat)
    requires i < |segs|
    requires Walk(root, segs[..i]).Success? && Walk(root, segs[..i]).value.children.Some?
    requires segs[i] !in Walk(root, segs[..i]).value.children.value
    ensures Walk(root, segs) == Failure(NotFound)
  {
    WalkAppend(root, segs[..i], segs[i..]);
    assert segs[..i] + segs[i..] == segs;
  }

  /** A successful walk went through a directory at every step, took the child named by
      each segment in order, and ended at the node it returns. */
  lemma {:induction false} WalkSucceedsStepwise(root: Node, segs: seq<string>, i: nat)
    requires i < |segs|
    requires Walk(root, segs).Success?
    ensures Walk(root, segs[..i]).Success?
    ensures Walk(root, segs[..i]).value.children.Some?
    ensures segs[i] in Walk(root, segs[..i]).value.children.value
    ensures Walk(root, segs[..i + 1]) == Success(Walk(root, segs[..i]).value.children.value[segs[i]])
  {
    WalkAppend(root, segs[..i], segs[i..]);
    assert segs[..i] + segs[i..] == segs;
    WalkAppend(root, segs[..i], [segs[i]]);
    assert segs[..i] + [segs[i]] == segs[..i + 1];
  }

  /** A path without '/' (the empty one included) resolves to the root itself, even when
      no child of that name exists. */
  lemma ResolveBareName(root: Node, path: string)
    requires '/' !in path
    ensures Resolve(root, path) == Success(root)
  {
    SplitNoSlash(path);
  }

  /** A trailing or leading '/' yields an empty segment that is looked up like any name:
      "a/" resolves to the child named "" of child "a", and "/a" to child "a" of the child named "". */
  lemma ResolveEmptySegment(root: Node, a: string)
    requires '/' !in a
    ensures Resolve(root, a + "/") == Walk(root, [a, ""])
    ensures Resolve(root, "/" + a) == Walk(root, ["", a])
  {
    SplitAppend(a, "");
    SplitNoSlash(a);
    assert a + "/" + "" == a + "/";
    SplitPrepend("", a);
    assert "" + "/" + a == "/" + a;
  }

  /** A path of two or more segments resolves to the node reached by descending through
      all of them, so resolution agrees with joining the segments into a path. */
  lemma ResolveSegments(root: Node, segs: seq<string>)
    requires |segs| >= 2
    requires forall i :: 0 <= i < |segs| ==> '/' !in segs[i]
    ensures Resolve(root, Join(segs)) == Walk(root, segs)
  {
    JoinSplit(segs);
  }
}
