/** Paths as the service handles them: `str::split('/')` and the name a node takes from its path. */
module Paths {

  /** Number of '/' characters in `s`. */
  function SlashCount(s: string): nat
  {
    if s == [] then 0 else (if s[0] == '/' then 1 else 0) + SlashCount(s[1..])
  }

  /** The segments `s.split('/')` yields, in order. There is always at least one,
      and empty segments are kept: "" gives [""], "a/" gives ["a", ""], "/a" gives ["", "a"]. */
  function Split(s: string): (segs: seq<string>)
    ensures |segs| == SlashCount(s) + 1
    ensures forall i :: 0 <= i < |segs| ==> '/' !in segs[i]
  {
    if s == [] then [""]
    else if s[0] == '/' then [""] + Split(s[1..])
    else
      var rest := Split(s[1..]);
      [[s[0]] + rest[0]] + rest[1..]
  }

  /** Segments glued back together with '/' between consecutive ones. */
  function Join(segs: seq<string>): string
  {
    if segs == [] then ""
    else if |segs| == 1 then segs[0]
    else segs[0] + "/" + Join(segs[1..])
  }

  /** The name `build_from_path` gives a node: the last segment of its path, which never
      contains '/'. */
  function LastSegment(path: string): (name: string)
    ensures '/' !in name
  {
    var segs := Split(path);
    segs[|segs| - 1]
  }

  /** Splitting loses nothing: joining the segments gives back the string. */
  lemma {:induction false} SplitJoin(s: string)
    ensures Join(Split(s)) == s
  {
    if s == [] {
    } else if s[0] == '/' {
      SplitJoin(s[1..]);
      assert s == "/" + s[1..];
    } else {
      var rest := Split(s[1..]);
      SplitJoin(s[1..]);
      if |rest| == 1 {
        assert s == [s[0]] + rest[0];
      } else {
        assert Join(rest) == rest[0] + "/" + Join(rest[1..]);
        assert s == [s[0]] + rest[0] + "/" + Join(rest[1..]);
      }
    }
  }

  /** A string without '/' is a single segment. */
  lemma {:induction false} SplitNoSlash(s: string)
    requires '/' !in s
    ensures Split(s) == [s]
  {
    if s != [] {
      assert s[0] != '/';
      assert '/' !in s[1..] by {
        forall i | 0 <= i < |s[1..]| ensures s[1..][i] != '/' {
          assert s[1..][i] == s[i + 1];
        }
      }
      SplitNoSlash(s[1..]);
      assert s == [s[0]] + s[1..];
    }
  }

  /** A slash-free first segment followed by '/' splits off as its own segment. */
  lemma {:induction false} SplitPrepend(a: string, t: string)
    requires '/' !in a
    ensures Split(a + "/" + t) == [a] + Split(t)
  {
    var s := a + "/" + t;
    if a == [] {
      assert s == "/" + t;
      assert s[1..] == t;
    } else {
      assert s[0] == a[0] && s[1..] == a[1..] + "/" + t;
      assert a == [a[0]] + a[1..];
      assert '/' !in a[1..] by {
        forall i | 0 <= i < |a[1..]| ensures a[1..][i] != '/' {
          assert a[1..][i] == a[i + 1];
        }
      }
      SplitPrepend(a[1..], t);
    }
  }

  /** Joining slash-free segments and splitting again gives the segments back. */
  lemma {:induction false} JoinSplit(segs: seq<string>)
    requires |segs| >= 1
    requires forall i :: 0 <= i < |segs| ==> '/' !in segs[i]
    ensures Split(Join(segs)) == segs
  {
    if |segs| == 1 {
      SplitNoSlash(segs[0]);
    } else {
      JoinSplit(segs[1..]);
      SplitPrepend(segs[0], Join(segs[1..]));
      assert segs == [segs[0]] + segs[1..];
    }
  }

  /** Appending "/" and a slash-free name adds exactly one segment at the end. */
  lemma {:induction false} SplitAppend(p: string, n: string)
    requires '/' !in n
    ensures Split(p + "/" + n) == Split(p) + [n]
  {
    var s := p + "/" + n;
    if p == [] {
      assert s == "/" + n;
      assert s[1..] == n;
      SplitNoSlash(n);
    } else {
      assert s[0] == p[0] && s[1..] == p[1..] + "/" + n;
      SplitAppend(p[1..], n);
    }
  }

  /** The path `build_from_path` gives a child is "<parent>/<name>", so the child's node is named `name`. */
  lemma ChildName(parent: string, name: string)
    requires '/' !in name
    ensures LastSegment(parent + "/" + name) == name
  {
    SplitAppend(parent, name);
  }
}
