/** `FileMap`: the snapshot tree, the root path it was indexed from, and the read-through
    content cache. Disk contents are a parameter: a map from the full path a read would
    open to what opening and reading it yields. */
module FileService {
  import opened Io
  import opened Paths
  import opened FileTree
  import opened Resolver
  import opened Lru

  /** The cache holds 20 entries. */
  const CacheCapacity: Capacity := 20

  /** What opening and reading each full path yields; a path not listed does not exist. */
  type Disk = map<string, Result<Bytes>>

  type CacheEntries = seq<Slot<string, Bytes>>

  /** Open and read `full` to the end: a path the disk does not hold is NotFound. */
  function ReadDisk(disk: Disk, full: string): (r: Result<Bytes>)
    ensures full !in disk ==> r == Failure(NotFound)
    ensures full in disk ==> r == disk[full]
  {
    if full in disk then disk[full] else Failure(NotFound)
  }

  /** `find_file_in_map`: resolve the path against the tree, and only then read
      "<root>/<path>" from disk, whatever kind of node the path resolved to. */
  function FindFile(head: Node, root: string, disk: Disk, path: string): (r: Result<Bytes>)
    ensures Resolve(head, path).Failure? ==> r == Failure(Resolve(head, path).error)
    ensures Resolve(head, path).Success? ==> r == ReadDisk(disk, root + "/" + path)
    ensures r.Success? ==> Resolve(head, path).Success? && root + "/" + path in disk && disk[root + "/" + path] == r
  {
    var _ :- Resolve(head, path);
    ReadDisk(disk, root + "/" + path)
  }

  /** The outcome of one `get_file` call and the cache it leaves. */
  datatype Served = Served(result: Result<Bytes>, cache: CacheEntries)

  /** `get_file`: a hit answers from the cache and promotes the entry; a miss goes through
      `find_file_in_map` and stores a successful read under the path exactly as given;
      an error is passed on and the cache is left as it was. */
  function Serve(head: Node, root: string, disk: Disk, cache: CacheEntries, path: string): (r: Served)
    ensures r.result.Success? ==> Lookup(r.cache, path) == Some(r.result.value)
  {
    match Lookup(cache, path)
    case Some(bytes) => Served(Success(bytes), Promote(cache, path))
    case None =>
      match FindFile(head, root, disk, path)
      case Success(bytes) => Served(Success(bytes), Insert(cache, CacheCapacity, path, bytes))
      case Failure(e) => Served(Failure(e), cache)
  }

  /** A path the tree rejects never reaches the disk: any two disks give the resolver's error. */
  lemma FindFileErrorSkipsDisk(head: Node, root: string, disk: Disk, disk': Disk, path: string)
    requires Resolve(head, path).Failure?
    ensures FindFile(head, root, disk, path) == FindFile(head, root, disk', path)
    ensures FindFile(head, root, disk, path) == Failure(Resolve(head, path).error)
  {
  }

  /** A hit returns the cached bytes whatever the tree and the disk hold: no resolution, no read. */
  lemma HitSkipsTreeAndDisk(head: Node, head': Node, root: string, root': string,
                            disk: Disk, disk': Disk, cache: CacheEntries, path: string)
    requires Lookup(cache, path).Some?
    ensures Serve(head, root, disk, cache, path).result == Success(Lookup(cache, path).value)
    ensures Serve(head, root, disk, cache, path) == Serve(head', root', disk', cache, path)
  {
  }

  /** On a miss, a resolver error is returned before any read, and the cache is unchanged. */
  lemma ResolveErrorSkipsDisk(head: Node, root: string, disk: Disk, disk': Disk,
                              cache: CacheEntries, path: string)
    requires Lookup(cache, path).None?
    requires Resolve(head, path).Failure?
    ensures Serve(head, root, disk, cache, path) == Served(Failure(Resolve(head, path).error), cache)
    ensures Serve(head, root, disk, cache, path) == Serve(head, root, disk', cache, path)
  {
  }

  /** Every failure leaves the cache exactly as it was. */
  lemma ErrorLeavesCache(head: Node, root: string, disk: Disk, cache: CacheEntries, path: string)
    requires Serve(head, root, disk, cache, path).result.Failure?
    ensures Serve(head, root, disk, cache, path).cache == cache
    ensures Lookup(cache, path).None?
  {
  }

  /** A miss that resolves and reads returns the bytes read from "<root>/<path>" and stores
      them under the path as given, as the most recent entry. */
  lemma MissStoresRead(head: Node, root: string, disk: Disk, cache: CacheEntries, path: string)
    requires Fits(cache, CacheCapacity)
    requires Lookup(cache, path).None?
    requires Resolve(head, path).Success?
    requires ReadDisk(disk, root + "/" + path).Success?
    ensures Serve(head, root, disk, cache, path).result == ReadDisk(disk, root + "/" + path)
    ensures Lookup(Serve(head, root, disk, cache, path).cache, path) == Some(ReadDisk(disk, root + "/" + path).value)
    ensures var after := Serve(head, root, disk, cache, path).cache;
      |after| > 0 && after[|after| - 1] == Slot(path, ReadDisk(disk, root + "/" + path).value)
  {
    InsertStores(cache, CacheCapacity, path, ReadDisk(disk, root + "/" + path).value);
  }

  /** The cache never holds more than 20 entries, nor a key twice. */
  lemma ServeFits(head: Node, root: string, disk: Disk, cache: CacheEntries, path: string)
    requires Fits(cache, CacheCapacity)
    ensures Fits(Serve(head, root, disk, cache, path).cache, CacheCapacity)
  {
    match Lookup(cache, path)
    case Some(_) => PromoteKeepsContents(cache, CacheCapacity, path, path);
    case None =>
      match FindFile(head, root, disk, path)
      case Success(bytes) => InsertFits(cache, CacheCapacity, path, bytes);
      case Failure(_) =>
  }

  /** Asking twice for the same path gives the same bytes the second time, even if the disk
      has changed in between (the file deleted, say): the second answer comes from the cache. */
  lemma RepeatIsServedFromCache(head: Node, root: string, disk: Disk, disk': Disk,
                                cache: CacheEntries, path: string)
    requires Fits(cache, CacheCapacity)
    requires Serve(head, root, disk, cache, path).result.Success?
    ensures Serve(head, root, disk', Serve(head, root, disk, cache, path).cache, path).result
         == Serve(head, root, disk, cache, path).result
  {
    match Lookup(cache, path)
    case Some(_) => PromoteKeepsContents(cache, CacheCapacity, path, path);
    case None =>
      InsertStores(cache, CacheCapacity, path, FindFile(head, root, disk, path).value);
  }

  /** A miss that reads a new path into a full cache evicts the least recent path,
      so the next request for that path misses and goes back to the tree and the disk. */
  lemma MissEvictsLeastRecent(head: Node, root: string, disk: Disk, disk': Disk,
                              cache: CacheEntries, path: string)
    requires Fits(cache, CacheCapacity) && |cache| == CacheCapacity
    requires Lookup(cache, path).None?
    requires FindFile(head, root, disk, path).Success?
    ensures var after := Serve(head, root, disk, cache, path).cache;
      Lookup(after, cache[0].key).None?
      && Serve(head, root, disk', after, cache[0].key).result == FindFile(head, root, disk', cache[0].key)
  {
    var old0 := cache[0].key;
    assert old0 != path;
    InsertKeepsOthers(cache, CacheCapacity, path, FindFile(head, root, disk, path).value, old0);
  }

  /** The service: the root path, the immutable snapshot tree and the cache. */
  class FileMap {
    const fullRootPath: string
    const head: Node
    const lru: LruCache<string, Bytes>

    ghost predicate Valid()
      reads lru
    {
      lru.Valid() && lru.cap == CacheCapacity
    }

    constructor (root: string, head: Node)
      ensures Valid() && fresh(lru)
      ensures fullRootPath == root && this.head == head && lru.entries == []
    {
      fullRootPath := root;
      this.head := head;
      lru := new LruCache(CacheCapacity);
    }

    /** `from_root_dir`: index the root and start with an empty cache, or fail with no service at all. */
    static method FromRootDir(root: string, fs: FsObject) returns (r: Result<FileMap>)
      ensures r.Success? <==> IndexRoot(root, fs).Success?
      ensures r.Failure? ==> r.error == IndexRoot(root, fs).error
      ensures r.Success? ==> r.value.Valid() && fresh(r.value.lru) && r.value.lru.entries == []
      ensures r.Success? ==> r.value.fullRootPath == root && r.value.head == IndexRoot(root, fs).value
    {
      match fs {
        case Unopenable(code) =>
          return Failure(Os(code));
        case Dir(_) =>
          var head := BuildFromPath(root, fs);
          if head.Failure? {
            return Failure(head.error);
          }
          var m := new FileMap(root, head.value);
          return Success(m);
        case _ =>
          return Failure(NotADirectory);
      }
    }

    /** `get_file_ref`: split the path, and if it has more than one segment walk every
        segment from the root; the tree is only read. */
    method GetFileRef(path: string) returns (r: Result<Node>)
      ensures r == Resolve(head, path)
    {
      var pathSplit := Split(path);
      var current := head;
      if |pathSplit| > 1 {
        for i := 0 to |pathSplit|
          invariant Walk(head, pathSplit) == Walk(current, pathSplit[i..])
        {
          assert pathSplit[i..][0] == pathSplit[i] && pathSplit[i..][1..] == pathSplit[i + 1..];
          match current.children {
            case Some(children) =>
              if pathSplit[i] in children {
                current := children[pathSplit[i]];
              } else {
                return Failure(NotFound);
              }
            case None =>
              return Failure(NotADirectory);
          }
        }
      }
      return Success(current);
    }

    /** `find_file_in_map`. */
    method FindFileInMap(disk: Disk, path: string) returns (r: Result<Bytes>)
      ensures r == FindFile(head, fullRootPath, disk, path)
    {
      var node := GetFileRef(path);
      if node.Failure? {
        return Failure(node.error);
      }
      r := ReadDisk(disk, fullRootPath + "/" + path);
    }

    /** `get_file`: one request, sequentially; the cache is the only state that changes. */
    method GetFile(disk: Disk, path: string) returns (r: Result<Bytes>)
      requires Valid()
      modifies lru
      ensures Valid()
      ensures Served(r, lru.entries) == Serve(head, fullRootPath, disk, old(lru.entries), path)
    {
      ServeFits(head, fullRootPath, disk, lru.entries, path);
      var checkLru := lru.Get(path);
      match checkLru {
        case Some(s) =>
          return Success(s);
        case None =>
          var found := FindFileInMap(disk, path);
          match found {
            case Success(l) =>
              lru.Put(path, l);
              return Success(l);
            case Failure(e) =>
              return Failure(e);
          }
      }
    }
  }
}
