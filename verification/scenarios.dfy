/** The directory used by the repository's own tests, whose root must have exactly the
    children "testfile1.txt", "testfile2.mp4" and "test2". The contents below are chosen for
    this example: the tests do not fix the size of "testfile2.mp4" or what "test2" holds,
    and the listing adds one unreadable entry and one name that is not valid Unicode,
    both of which are skipped. */
module Scenarios {
  import opened Io
  import opened Paths
  import opened FileTree
  import opened Resolver
  import opened FileService

  const TestDir: string := "../test_dir"

  function TestTree(): FsObject
  {
    Dir([Named("testfile1.txt", File(13)), ListingError, Named("testfile2.mp4", File(4096)),
         NonUnicodeName, Named("test2", Dir([]))])
  }

  lemma TestTreeIndexable()
    ensures Indexable(TestTree())
  {
  }

  lemma TestTreeNames()
    ensures NamesAmong(TestTree().entries, 5) == {"testfile1.txt", "testfile2.mp4", "test2"}
  {
    var entries := TestTree().entries;
    assert entries[0].name == "testfile1.txt" && entries[2].name == "testfile2.mp4" && entries[4].name == "test2";
    forall n | n in NamesAmong(entries, 5) ensures n in {"testfile1.txt", "testfile2.mp4", "test2"} {
      var i :| 0 <= i < 5 && entries[i].Named? && entries[i].name == n;
      assert i == 0 || i == 2 || i == 4;
    }
  }

  lemma TestDirName()
    ensures LastSegment(TestDir) == "test_dir"
  {
    assert TestDir == ".." + "/" + "test_dir";
    ChildName("..", "test_dir");
  }

  /** The root is named "test_dir", has size 0 and exactly three children, and the
      empty path resolves to it. */
  lemma WorkingDir(root: string, tree: FsObject) returns (head: Node)
    requires root == TestDir && tree == TestTree()
    ensures IndexRoot(root, tree) == Success(head)
    ensures head.name == "test_dir" && head.size == 0 && head.children.Some?
    ensures head.children.value.Keys == {"testfile1.txt", "testfile2.mp4", "test2"}
    ensures |head.children.value| == 3
    ensures Resolve(head, "") == Success(head)
  {
    TestTreeIndexable();
    BuildSucceedsIff(root, tree);
    head := IndexRoot(root, tree).value;
    DirectoryNode(root, tree.entries);
    TestTreeNames();
    TestDirName();
    ResolveBareName(head, "");
    ThreeChildren(head.children.value);
  }

  lemma ThreeChildren(m: map<string, Node>)
    requires m.Keys == {"testfile1.txt", "testfile2.mp4", "test2"}
    ensures |m| == 3
  {
  }

  /** Reading a top-level file such as "testfile1.txt" through an empty cache yields exactly
      what reading "<root>/<name>" yields (13 bytes in the repository's test); the bare name
      resolves to the root, so this holds whatever tree was indexed, and the resolver's
      NotFound never reaches such a request. */
  lemma FileReading(root: string, head: Node, disk: Disk, name: string)
    requires '/' !in name
    ensures Serve(head, root, disk, [], name).result == ReadDisk(disk, root + "/" + name)
  {
    ResolveBareName(head, name);
  }
}
