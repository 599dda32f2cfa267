# portable-media-local file map, modelled in Dafny

This project models `portable-media-local/src/file_map.rs`. That file indexes a local directory tree once. It then serves file contents by relative path through a 20-entry least-recently-used cache. The model has three parts.

- **Indexer** (`FileNode::build_from_path`, `FileMap::from_root_dir`). The filesystem under the root is a value of type `FsObject`. It is a regular file with a length, a directory listing, a symlink, or an object that cannot be opened. A listing holds entries that fail to list, entries whose names are not valid Unicode, and named entries. `FileTree.Build` turns this value into a `Node` tree or an error. `FileTree.BuildFromPath` is the source's loop that fills the children map, and it is proved equal to `Build`. A directory gets `children == Some(map)` and size 0. A file gets `children == None` and its length. Failed and non-Unicode entries are skipped. A symlink or an unopenable object anywhere under a named entry fails the whole build.
- **Resolver** (`FileMap::get_file_ref`). `Paths.Split` models `str::split('/')`. `Resolver.Resolve` states what the source does. A path that splits into one segment returns the root without any lookup. Any other path is walked segment by segment, the empty segment included. A file in the way gives `NotADirectory`, and a missing name gives `NotFound`. `FileMap.GetFileRef` is the source's `for` loop, proved equal to `Resolve`.
- **Read-through cache** (`find_file_in_map`, `get_file`). `Lru.LruCache` keeps its entries in recency order, least recent first. `Get` moves a hit to the most-recent end. `Put` replaces an existing key, or appends a new one after evicting the least recent entry when the cache is full. The disk is a map from the full path `"<root>/<path>"` to the outcome of opening and reading it. `FileService.Serve` is one `get_file` call as a function. `FileMap.GetFile` is the method, proved against `Serve`.

One-segment paths skip the walk. At `file_map.rs:131`, the code walks the tree only when the path splits into more than one segment. So any path without `'/'` resolves to the root, and so does `""`, as the doc comment at `file_map.rs:127` states. `Resolver.ResolveBareName` proves this, including when no child has that name. A bare-name `get_file` therefore never gets `NotFound` from the resolver: it goes straight to the disk read.

## Model

| member | source | states |
|---|---|---|
| Paths.Split | portable-media-local/src/file_map.rs:129 | `split('/')` yields one more segment than there are '/' characters (so always at least one), and no segment contains '/' |
| Paths.LastSegment | portable-media-local/src/file_map.rs:27-28 | the name a node takes from its path never contains '/'; `Paths.ChildName` shows it is the child's own name |
| Paths.SplitJoin | portable-media-local/src/file_map.rs:129 | joining the segments with '/' gives back the path: splitting loses nothing |
| Paths.JoinSplit | portable-media-local/src/file_map.rs:129 | splitting the join of slash-free segments gives the segments back |
| Paths.SplitNoSlash | portable-media-local/src/file_map.rs:129-131 | a string without '/' (including "") splits into the single segment that is itself |
| Paths.SplitPrepend | portable-media-local/src/file_map.rs:129 | a slash-free prefix followed by '/' becomes the first segment, and the rest splits on its own |
| Paths.SplitAppend | portable-media-local/src/file_map.rs:83 | appending "/" and a slash-free name to a path adds exactly that name as the last segment |
| Paths.ChildName | portable-media-local/src/file_map.rs:27-28 | a child built at "<parent>/<name>" gets the name `name` when the name has no '/' |
| FileTree.Build | portable-media-local/src/file_map.rs:22-94 | a built node is named by the last segment of its path; it has no children exactly when it is a file; a file's size is its length and a directory's is 0; a symlink fails with Other and an unopenable object with its OS error, and no other error kind ever arises |
| FileTree.BuildChildren | portable-media-local/src/file_map.rs:54-86 | the listing loop after k entries fails only with a symlink error or an OS error, and names every child by the last segment of "<path>/<name>"; `ChildrenSucceedIff`, `ChildrenKeys` and `ChildrenBuiltFromEntries` give the rest of its meaning |
| FileTree.BuildFromPath | portable-media-local/src/file_map.rs:47-93 | the loop over the listing, skipping failed and non-Unicode entries and returning the first child error, computes exactly `Build` |
| FileTree.FailureSticks | portable-media-local/src/file_map.rs:82-84 | once a child build fails, later entries do not change the outcome: the error propagates unchanged |
| FileTree.ChildErrorPropagates | portable-media-local/src/file_map.rs:80-84 | when the listing has built cleanly up to a named entry whose build fails, the directory's build fails with exactly that child's error, as `?` returns it |
| FileTree.BuildSucceedsIff | portable-media-local/src/file_map.rs:38-84 | the build succeeds if and only if no object reachable through a named entry is a symlink or fails to open; one bad descendant aborts the whole tree |
| FileTree.ChildrenSucceedIff | portable-media-local/src/file_map.rs:54-86 | the listing loop succeeds over the first k entries if and only if every named entry among them is indexable |
| FileTree.ChildrenKeys | portable-media-local/src/file_map.rs:54-85 | the children map's keys are exactly the names of the entries that were neither listing errors nor non-Unicode names |
| FileTree.ChildrenBuiltFromEntries | portable-media-local/src/file_map.rs:80-85 | every child is the successful build, at "<path>/<name>", of a listed entry with that name |
| FileTree.DirectoryNode | portable-media-local/src/file_map.rs:47-87 | a directory's node has size 0, has children keyed by exactly the names not skipped, and each slash-free child name is that child's own name |
| FileTree.IndexRoot | portable-media-local/src/file_map.rs:104-115 | a root that is a file or a symlink is rejected with NotADirectory, an unopenable root with its OS error; a directory root that fails to index fails with the build's error; a successful index is a directory node of size 0 named by the root's last segment |
| FileTree.IndexRootSucceedsIff | portable-media-local/src/file_map.rs:104-115 | a tree is produced if and only if the root is a directory and nothing below it is a symlink or fails to open; otherwise a directory root gives the build's error, so one bad descendant means no service |
| Resolver.Walk | portable-media-local/src/file_map.rs:132-151 | descending through the segments fails only with NotFound or NotADirectory; `WalkAppend`, `StepIntoFile`, `StepIntoMissing` and `WalkSucceedsStepwise` give the rest of its meaning |
| Resolver.Resolve | portable-media-local/src/file_map.rs:128-154 | resolution fails only with NotFound or NotADirectory, and a file root resolves only to itself; `ResolveBareName`, `ResolveEmptySegment` and `ResolveSegments` give the rest of its meaning |
| Resolver.WalkAppend | portable-media-local/src/file_map.rs:132-151 | walking a concatenation of segments is walking the first part and then the second from where it ended, errors passing through |
| Resolver.StepIntoFile | portable-media-local/src/file_map.rs:142-149 | if the node reached after some segments is a file and a segment remains, resolution fails with NotADirectory |
| Resolver.StepIntoMissing | portable-media-local/src/file_map.rs:133-141 | if the node reached after some segments is a directory lacking the next segment, resolution fails with NotFound |
| Resolver.WalkSucceedsStepwise | portable-media-local/src/file_map.rs:132-136 | a successful walk passed through a directory at every step and took, in order, the child named by each segment |
| Resolver.ResolveBareName | portable-media-local/src/file_map.rs:128-131 | a path with no '/' (the empty path included) resolves to the root itself, whether or not a child of that name exists |
| Resolver.ResolveEmptySegment | portable-media-local/src/file_map.rs:129-134 | "a/" and "/a" produce an empty segment that is looked up literally like any other name |
| Resolver.ResolveSegments | portable-media-local/src/file_map.rs:129-153 | a path of two or more slash-free segments resolves to the node reached by descending through all of them |
| Lru.Lookup | portable-media-local/src/file_map.rs:185 | a hit is a slot of the cache holding that key and value; a miss means no slot has the key |
| Lru.Remove | portable-media-local/src/file_map.rs:185-192 | the result is no longer than the cache, keeps the length exactly when the key is absent, and holds only slots of the cache with other keys; `RemoveKeepsOrder` gives their order |
| Lru.Promote | portable-media-local/src/file_map.rs:185 | `get` never grows the cache, finds the same value under the key afterwards, and on a miss leaves the entries exactly as they were, recency order included; `PromoteKeepsContents`, `PromoteMakesMostRecent` and `PromoteKeepsOrder` give the rest |
| Lru.Insert | portable-media-local/src/file_map.rs:192 | `put` keeps a cache within its capacity and leaves the key mapped to the new value; `InsertFits`, `InsertKeepsOthers` and `InsertKeepsOrder` give the rest |
| Lru.InsertFits | portable-media-local/src/file_map.rs:192 | `put` keeps keys distinct and the number of entries within the capacity |
| Lru.PromoteKeepsContents | portable-media-local/src/file_map.rs:185 | `get` keeps the cache invariant and every key's value; only the recency order changes |
| Lru.PromoteMakesMostRecent | portable-media-local/src/file_map.rs:185 | after a hit the key is the most recent entry |
| Lru.InsertStores | portable-media-local/src/file_map.rs:192 | after `put` the key maps to the new value and is the most recent entry |
| Lru.InsertKeepsOthers | portable-media-local/src/file_map.rs:192 | `put` leaves every other key's value alone, except that a new key in a full cache evicts the least recent entry |
| Lru.RemoveKeepsOrder | portable-media-local/src/file_map.rs:185-192 | removing a key keeps every other entry, in its old relative order, and drops nothing else: the result is `es` at strictly increasing positions, exactly those whose key differs |
| Lru.PromoteKeepsOrder | portable-media-local/src/file_map.rs:185 | after a hit, the entries before the promoted one are those of `Remove`, so the other entries keep their recency order |
| Lru.InsertKeepsOrder | portable-media-local/src/file_map.rs:192 | before the new last entry, `put` leaves `Remove(es, k)` for a present key, `es` minus its least recent entry for a new key in a full cache, and `es` otherwise |
| Lru.LruCache.constructor | portable-media-local/src/file_map.rs:120 | a new cache is empty with the given non-zero capacity |
| Lru.LruCache.Get | portable-media-local/src/file_map.rs:185 | returns the value under the key if present and promotes it; the contents are otherwise unchanged and the invariant holds |
| Lru.LruCache.Put | portable-media-local/src/file_map.rs:192 | stores the value as most recent, evicting as `put` does, and keeps the invariant |
| FileService.FindFile | portable-media-local/src/file_map.rs:162-176 | a resolver error is returned as is; otherwise the result is the read of "<root>/<path>", whatever the resolved node is; bytes are returned only when the path resolved and "<root>/<path>" was on disk and read to exactly those bytes; `ResolveErrorSkipsDisk` and `Scenarios.FileReading` give its use in `get_file` |
| FileService.FindFileErrorSkipsDisk | portable-media-local/src/file_map.rs:167 | a path the tree rejects gives the resolver's error whatever the disk holds: the pending open at :164 is never awaited |
| FileService.Serve | portable-media-local/src/file_map.rs:182-201 | after a successful request the cache answers the path with the bytes just served; the lemmas below give hits, misses, errors and eviction |
| FileService.HitSkipsTreeAndDisk | portable-media-local/src/file_map.rs:185-188 | a hit returns the cached bytes, independently of the tree, the root and the disk |
| FileService.ResolveErrorSkipsDisk | portable-media-local/src/file_map.rs:167 | on a miss, a resolver error is returned with the cache unchanged, independently of the disk |
| FileService.ErrorLeavesCache | portable-media-local/src/file_map.rs:195-197 | every failed request was a miss and leaves the cache exactly as it was |
| FileService.MissStoresRead | portable-media-local/src/file_map.rs:190-194 | a miss that resolves and reads returns the bytes read and stores them under the path exactly as given, as the most recent entry |
| FileService.ServeFits | portable-media-local/src/file_map.rs:120 | the cache never holds more than 20 entries or a key twice |
| FileService.RepeatIsServedFromCache | portable-media-local/src/file_map.rs:185-194 | after a successful request, the same path is served the same bytes even if the disk has changed |
| FileService.MissEvictsLeastRecent | portable-media-local/src/file_map.rs:192 | a new path read into a full cache evicts the least recent path, whose next request goes back to the tree and the disk |
| FileService.FileMap.constructor | portable-media-local/src/file_map.rs:117-121 | a service starts with the given root and tree and an empty cache of capacity 20 |
| FileService.FileMap.FromRootDir | portable-media-local/src/file_map.rs:104-122 | a service exists exactly when the root indexes, with that tree and an empty cache; otherwise the indexing error is returned |
| FileService.FileMap.GetFileRef | portable-media-local/src/file_map.rs:128-154 | the segment loop returns exactly `Resolve` and only reads the tree |
| FileService.FileMap.FindFileInMap | portable-media-local/src/file_map.rs:162-176 | resolves with `GetFileRef`, then reads, giving exactly `FindFile` |
| FileService.FileMap.GetFile | portable-media-local/src/file_map.rs:182-201 | the result and the new cache are those of `Serve`, and the cache invariant is kept |
| Scenarios.WorkingDir | portable-media-local/src/file_map.rs:213-224 | the test directory indexes to a root named "test_dir" of size 0 with exactly the three children "testfile1.txt", "testfile2.mp4" and "test2", skipping a failed entry and a non-Unicode one; "" resolves to the root |
| Scenarios.FileReading | portable-media-local/src/file_map.rs:228-232 | a top-level name read through an empty cache returns exactly what reading "<root>/<name>" gives, whatever the tree: the resolver cannot reject a bare name |

## Left out

- Asynchronous I/O: tokio's open and `read_to_end` (`file_map.rs:164`, `171-173`) become one lookup in the disk map, `FileService.ReadDisk`, which is an input to the model rather than a modelled operation. Opening a file is an async call that does not run before it is awaited, so the model reads only after resolution succeeds.
- The mutex around the cache (`file_map.rs:183`): each `get_file` call is one sequential step. Concurrent callers, holding the lock across the read, and lock poisoning (the `unwrap` on `lock()`) are not modelled.
- `Arc` sharing and reference counts: the tree is an immutable value, and cached buffers are byte sequences.
- The `log_err` calls on skipped entries (`file_map.rs:56-63`, `68-76`) are a logging side channel, so they are left out.
- `read_dir(path).unwrap()` (`file_map.rs:52`) panics if a directory cannot be listed. In the model a directory always has a listing, so that panic is not represented.
- The `None` branch of `split("/").last()` (`file_map.rs:29-34`) cannot happen, because `Paths.Split` always yields a segment.
- FIFOs and device files are not modelled. They open, are not regular files, and so take the directory branch at `file_map.rs:47-52`, where `read_dir(path).unwrap()` panics; opening a FIFO at `file_map.rs:23` may block first. A Unix domain socket cannot be opened at `file_map.rs:23` at all, so it is an `Unopenable` object with its OS error and fails the build without a panic.
- The symlink check (`file_map.rs:38`) runs on metadata that follows links, so no real filesystem reaches it. It is modelled as written, against the abstract `Symlink` kind. On a real filesystem a link to a file is indexed as that file and a link to a directory is descended into, so the symlink half of `FileTree.BuildSucceedsIff` holds only of the abstract `Symlink` kind, which stands for no real object.
- The buffer capacity hint `Vec::with_capacity(r.size)` (`file_map.rs:169`) does not change behaviour. Read bytes are not checked against the indexed size.
- The internals of the `lru` crate (a hash map with a linked list) are not modelled. The cache is a recency-ordered sequence, and `Get`/`Put` assign the specification functions directly.
- Error messages are not modelled, only error kinds. During indexing a symlink yields `Other` and an object that cannot be opened carries its OS code. A read gives `NotFound` for a path the disk map does not hold, and otherwise whatever outcome the map records, which may be any error kind.
- Scenarios.FileReading: it is stated for any top-level name and any disk content, not only the 13-byte file of the repository's test. The bytes of that file are not part of this model.
- The read of a path that resolves to a directory is whatever the disk map says for that path. Real filesystems fail that read.
