/** The directory indexer: `FileNode` and `FileNode::build_from_path`.
    The filesystem under the root is given as a value, `FsObject`, so that the
    indexer is a function from that value to a snapshot tree or an error. */
module FileTree {
  import opened Io
  import opened Paths

  /** `FileNode`: `children` present marks a directory, absent marks a regular file. */
  datatype Node = Node(name: string, size: u64, children: Option<map<string, Node>>)

  /** What `File::open` and `metadata` find at a path. */
  datatype FsObject =
    | File(len: u64)               // a regular file of `len` bytes
    | Dir(entries: seq<DirEntry>)  // a directory, listed in `read_dir` order
    | Symlink                      // a symbolic link
    | Unopenable(code: int)        // `open` or `metadata` fails with this OS error

  /** One item of a `read_dir` listing. */
  datatype DirEntry =
    | ListingError                      // the iterator yields an `Err`
    | NonUnicodeName                    // `file_name().into_string()` fails
    | Named(name: string, obj: FsObject)

  /** True when no reachable object is a symlink or unopenable; skipped entries do not matter. */
  predicate Indexable(fs: FsObject)
  {
    match fs
    case File(_) => true
    case Dir(entries) =>
      forall i :: 0 <= i < |entries| && entries[i].Named? ==> Indexable(entries[i].obj)
    case Symlink => false
    case Unopenable(_) => false
  }

  /** The names of the entries that are neither listing errors nor non-Unicode names, among the first `k`. */
  function NamesAmong(entries: seq<DirEntry>, k: nat): set<string>
    requires k <= |entries|
  {
    set i | 0 <= i < k && entries[i].Named? :: entries[i].name
  }

  /** `build_from_path(path)` against the object found at `path`. */
  function Build(path: string, fs: FsObject): (r: Result<Node>)
    decreases fs, 1, 0
    ensures r.Success? ==> r.value.name == LastSegment(path)
    ensures r.Success? ==> (r.value.children.None? <==> fs.File?)
    ensures r.Success? && fs.File? ==> r.value.size == fs.len
    ensures r.Success? && fs.Dir? ==> r.value.size == 0
    ensures fs.Symlink? ==> r == Failure(Other)
    ensures fs.Unopenable? ==> r == Failure(Os(fs.code))
    ensures r.Failure? ==> r.error == Other || r.error.Os?
  {
    match fs
    case Unopenable(code) => Failure(Os(code))
    case Symlink => Failure(Other)
    case File(len) => Success(Node(LastSegment(path), len, None))
    case Dir(entries) =>
      var children :- BuildChildren(path, entries, |entries|);
      Success(Node(LastSegment(path), 0, Some(children)))
  }

  /** The children map after the loop of `build_from_path` has processed the first `k` entries:
      skipped entries leave it alone, a named entry is built at "<path>/<name>" and inserted,
      and the first failing child build ends everything with its error. */
  function BuildChildren(path: string, entries: seq<DirEntry>, k: nat): (r: Result<map<string, Node>>)
    requires k <= |entries|
    decreases Dir(entries), 0, k
    ensures r.Failure? ==> r.error == Other || r.error.Os?
    ensures r.Success? ==> forall name :: name in r.value ==> r.value[name].name == LastSegment(path + "/" + name)
  {
    if k == 0 then Success(map[])
    else
      var m :- BuildChildren(path, entries, k - 1);
      match entries[k - 1]
      case ListingError => Success(m)
      case NonUnicodeName => Success(m)
      case Named(name, obj) =>
        var child :- Build(path + "/" + name, obj);
        Success(m[name := child])
  }

  /** `FileMap::from_root_dir`: the root must open and be a directory, then it is indexed. */
  function IndexRoot(root: string, fs: FsObject): (r: Result<Node>)
    ensures fs.File? || fs.Symlink? ==> r == Failure(NotADirectory)
    ensures fs.Unopenable? ==> r == Failure(Os(fs.code))
    ensures r.Success? ==> r.value.children.Some? && r.value.size == 0 && r.value.name == LastSegment(root)
    ensures fs.Dir? && r.Failure? ==> r == Build(root, fs)
  {
    match fs
    case Unopenable(code) => Failure(Os(code))
    case Dir(_) => Build(root, fs)
    case _ => Failure(NotADirectory)
  }

  /** The loop of `build_from_path`, recursing on each named entry as the source does. */
  method BuildFromPath(path: string, fs: FsObject) returns (r: Result<Node>)
    decreases fs
    ensures r == Build(path, fs)
  {
    match fs {
      case Unopenable(code) =>
        return Failure(Os(code));
      case Symlink =>
        return Failure(Other);
      case File(len) =>
        return Success(Node(LastSegment(path), len, None));
      case Dir(entries) =>
        var childrenMap: map<string, Node> := map[];
        var i := 0;
        while i < |entries|
          invariant 0 <= i <= |entries|
          invariant BuildChildren(path, entries, i) == Success(childrenMap)
        {
          match entries[i] {
            case ListingError =>
            case NonUnicodeName =>
            case Named(name, obj) =>
              var child := BuildFromPath(path + "/" + name, obj);
              if child.Failure? {
                FailureSticks(path, entries, i + 1, |entries|);
                return Failure(child.error);
              }
              childrenMap := childrenMap[name := child.value];
          }
          i := i + 1;
        }
        return Success(Node(LastSegment(path), 0, Some(childrenMap)));
    }
  }

  /** Once a child build has failed, the rest of the listing does not change the outcome. */
  lemma {:induction false} FailureSticks(path: string, entries: seq<DirEntry>, j: nat, k: nat)
    requires j <= k <= |entries|
    requires BuildChildren(path, entries, j).Failure?
    ensures BuildChildren(path, entries, k) == BuildChildren(path, entries, j)
    decreases k
  {
    if k > j {
      FailureSticks(path, entries, j, k - 1);
    }
  }

  /** When the listing has built cleanly up to a named entry whose own build fails, the
      directory's build fails with that child's error, whatever the later entries are. */
  lemma ChildErrorPropagates(path: string, entries: seq<DirEntry>, k: nat)
    requires 0 < k <= |entries|
    requires BuildChildren(path, entries, k - 1).Success?
    requires entries[k - 1].Named?
    requires Build(path + "/" + entries[k - 1].name, entries[k - 1].obj).Failure?
    ensures Build(path, Dir(entries)) == Failure(Build(path + "/" + entries[k - 1].name, entries[k - 1].obj).error)
  {
    FailureSticks(path, entries, k, |entries|);
  }

  /** The build succeeds exactly when nothing reachable through a named entry is a symlink
      or fails to open: one bad descendant aborts the whole build. */
  lemma {:induction false} BuildSucceedsIff(path: string, fs: FsObject)
    ensures Build(path, fs).Success? <==> Indexable(fs)
    decreases fs, 1, 0
  {
    match fs
    case Dir(entries) => ChildrenSucceedIff(path, entries, |entries|);
    case File(_) =>
    case Symlink =>
    case Unopenable(_) =>
  }

  /** `from_root_dir` yields a tree exactly when the root is a directory and nothing below it
      is a symlink or fails to open; a directory that fails to index gives the build's error. */
  lemma IndexRootSucceedsIff(root: string, fs: FsObject)
    ensures IndexRoot(root, fs).Success? <==> fs.Dir? && Indexable(fs)
    ensures fs.Dir? && !Indexable(fs) ==> IndexRoot(root, fs) == Failure(Build(root, fs).error)
  {
    BuildSucceedsIff(root, fs);
  }

  /** The first `k` entries build exactly when every named one among them is indexable. */
  lemma {:induction false} ChildrenSucceedIff(path: string, entries: seq<DirEntry>, k: nat)
    requires k <= |entries|
    ensures BuildChildren(path, entries, k).Success?
        <==> forall i :: 0 <= i < k && entries[i].Named? ==> Indexable(entries[i].obj)
    decreases Dir(entries), 0, k
  {
    if k > 0 {
      ChildrenSucceedIff(path, entries, k - 1);
      match entries[k - 1]
      case Named(name, obj) => BuildSucceedsIff(path + "/" + name, obj);
      case ListingError =>
      case NonUnicodeName =>
    }
  }

  /** `node` is the build, at "<path>/<name>", of one of the first `k` entries named `name`. */
  predicate BuiltFrom(path: string, entries: seq<DirEntry>, k: nat, name: string, node: Node)
    requires k <= |entries|
  {
    exists i :: 0 <= i < k && entries[i].Named? && entries[i].name == name
      && Build(path + "/" + name, entries[i].obj) == Success(node)
  }

  /** The children map is keyed by exactly the names of the entries that were not skipped. */
  lemma {:induction false} ChildrenKeys(path: string, entries: seq<DirEntry>, k: nat)
    requires k <= |entries|
    requires BuildChildren(path, entries, k).Success?
    ensures BuildChildren(path, entries, k).value.Keys == NamesAmong(entries, k)
  {
    if k > 0 {
      ChildrenKeys(path, entries, k - 1);
      match entries[k - 1]
      case Named(name, obj) =>
        assert NamesAmong(entries, k) == NamesAmong(entries, k - 1) + {name};
      case ListingError =>
        assert NamesAmong(entries, k) == NamesAmong(entries, k - 1);
      case NonUnicodeName =>
        assert NamesAmong(entries, k) == NamesAmong(entries, k - 1);
    }
  }

  /** Every child is the build of one of the listed entries of that name. */
  lemma {:induction false} ChildrenBuiltFromEntries(path: string, entries: seq<DirEntry>, k: nat)
    requires k <= |entries|
    requires BuildChildren(path, entries, k).Success?
    ensures forall name :: name in BuildChildren(path, entries, k).value ==>
      BuiltFrom(path, entries, k, name, BuildChildren(path, entries, k).value[name])
  {
    if k > 0 {
      ChildrenBuiltFromEntries(path, entries, k - 1);
      var m := BuildChildren(path, entries, k - 1).value;
      var m' := BuildChildren(path, entries, k).value;
      forall n | n in m'
        ensures BuiltFrom(path, entries, k, n, m'[n])
      {
        if entries[k - 1].Named? && entries[k - 1].name == n {
          assert Build(path + "/" + n, entries[k - 1].obj) == Success(m'[n]);
        } else {
          assert n in m && m'[n] == m[n];
          assert BuiltFrom(path, entries, k - 1, n, m[n]);
          var i :| 0 <= i < k - 1 && entries[i].Named? && entries[i].name == n
            && Build(path + "/" + n, entries[i].obj) == Success(m[n]);
        }
      }
    }
  }

  /** A directory indexes to a node of size 0 whose children are keyed by exactly the
      names of the entries that were not skipped; a child whose name has no '/' carries that name. */
  lemma DirectoryNode(path: string, entries: seq<DirEntry>)
    requires Build(path, Dir(entries)).Success?
    ensures Build(path, Dir(entries)).value.size == 0
    ensures Build(path, Dir(entries)).value.children.Some?
    ensures Build(path, Dir(entries)).value.children.value.Keys == NamesAmong(entries, |entries|)
    ensures forall name :: name in Build(path, Dir(entries)).value.children.value && '/' !in name ==>
      Build(path, Dir(entries)).value.children.value[name].name == name
  {
    var m := Build(path, Dir(entries)).value.children.value;
    ChildrenKeys(path, entries, |entries|);
    ChildrenBuiltFromEntries(path, entries, |entries|);
    forall name | name in m && '/' !in name
      ensures m[name].name == name
    {
      assert BuiltFrom(path, entries, |entries|, name, m[name]);
      ChildName(path, name);
    }
  }
}
