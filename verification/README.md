# Verified model of the gogs-mcp server

This project models four parts of the server and proves what they are for.

* **The shared disk cache.** Any number of concurrent calls share one user root. Readers pin cache
  entries with shared locks, one writer at a time extracts snapshots and evicts, and cleaners remove
  everything. `CacheProtocol.dfy` is a step machine of these calls, in which every lock attempt, close,
  stat, rename and removal is one atomic step, the downgrade of a lock is two steps, and a crash drops
  all locks of a process at once. `CacheSafety.dfy` proves its invariant, `CacheTheorems.dfy` the
  guarantees over every interleaving. `DiskTree.dfy`, `Eviction.dfy`, `DiskCache.dfy`, `Quota.dfy`,
  `BudgetFiles.dfy` and `Extraction.dfy` model the byte budget: the walk that finds entries, the eviction
  loop, reservations, budgeted files and the extraction of an archive, as classes that change a disk. The
  disk keeps a ghost history of its files, one state for each change, and the limit is stated of all of them.
  `SafeNames.dfy` holds the check of entry names. `Archive.dfy` says what a list of entries amounts to,
  wrapper included, and holds the bounded reader; `Flattening.dfy` removes the wrapper on the disk, and
  `Destination.dfy` relates changes of the disk to the content below a directory.
* **The commit graph.** `CommitGraph.dfy` holds the bounded walk with its stack, `MergeBases.dfy` the commits
  of a pull request and the merge bases, `MergeState.dfy` the classification built on both. Reachability and
  acyclicity are defined by paths, in any commit store; a rank that falls along parents gives acyclicity.
* **Bounded output that can be continued.** `Utf8.dfy` and `BodyChunks.dfy` (body chunks), `JsonText.dfy` and
  `FileRanges.dfy` (line ranges under an escaped byte budget), `DiffText.dfy` (the bounded diff),
  `PullCursor.dfy` (the pull request cursor), `LiteralSearch.dfy` (literal matching in a line) and
  `FileSearch.dfy` (searching a file, with context lines and cut lines).
* **Token resolution.** `UserCache.dfy` and `UserHistory.dfy` (the user cache and the invalid-token set),
  `SingleFlight.dfy` and `SingleFlightTheorems.dfy` (one probe per token at a time, eight in all).

`Sorting.dfy`, `Sets.dfy`, `Integers.dfy` and `Wrappers.dfy` are shared helpers. `dafny verify dfyconfig.toml` checks everything.

How to read it: a loop of the source is a method with that loop, proved against a function or a predicate;
the lemmas then say what the function means. State machines (`CacheProtocol`, `SingleFlight`, `Quota`) have an
inductive invariant, and the theorems quantify over every `Run`.

## Where the code and its comments or messages differ

The model follows the code.

* `internal/snapshot/snapshot.go:503-504` says that a name clash cannot come from an archive wrapped in one
  directory. It does when the content has an entry with the name of the wrapper: such an archive is
  refused (`Archive.WrappedArchive`, `Archive.ClashExample`).
* `internal/snapshot/snapshot.go:443-447` ignores an entry that cleans to the root of the archive. `safeJoin`
  has refused such an entry before (`SafeNames.RootEntryIsRefused`), so the archive is refused.
* `internal/snapshot/snapshot.go:484-486` says that an archive without a wrapper is left untouched. One whose
  content is a single directory is not (`Archive.FlattenLeavesUnwrapped`).
* `internal/snapshot/snapshot.go:552-553` says that the reader fails once more than the maximum has been read.
  It also fails for a stream of exactly the maximum whose end is reported by a separate read (`Archive.Drain`).
* `internal/gogs/gitdiff.go:53-55` speaks of a first-parent walk. The code walks all parents.
* The line budget of a file reply is 56 KiB, while the warning about it speaks of 64 KiB.
* A budgeted file can record a size that is not there: a write of zero bytes, or an append, that starts
  beyond the end (`BudgetFiles.RecordStaysAccurate`). Those bytes have been charged, so they are prepaid, and
  until the disk is measured again nothing is lost (`BudgetFiles.BalanceOverRuns`). A measurement forgets
  them, and the same bytes may then be used twice: `BudgetFiles.RemeasuringForgetsPrepaid` is such a case, and
  `BudgetFiles.FundedWritesFit` says exactly when the writes that follow stay within the limit.
* `internal/mcpserver/contents.go:229-244` takes a malformed byte for the replacement character and counts its
  three bytes as bytes of the text, so it may cut elsewhere or beyond the end. Its budget is kept for valid
  UTF-8 only (`JsonText.BudgetNeedsValidText`), and `boundedFile` passes nothing else.

## Model

| member | source | states |
|---|---|---|
| CacheProtocol.Step | internal/snapshot/snapshot.go:150-231 | One atomic step of a call; whatever it is, the other calls stay where they are. |
| CacheSafety.TablesKept | internal/diskcache/cache.go:44-87 | The lock tables agree with the program counters, and an exclusive lock excludes shared ones, after every kind of lock movement. |
| CacheSafety.ExclusiveAcquireKeepsInv | internal/snapshot/snapshot.go:181-185 | Taking the exclusive entry lock under the writer lock keeps the invariant. |
| CacheSafety.PublishKeepsInv | internal/snapshot/snapshot.go:217-230 | Publishing keeps the invariant: what appears is complete, with metadata, where nothing was. |
| CacheSafety.CrashKeepsInv | internal/diskcache/cache.go:81-86 | The death of any set of processes at any moment keeps the invariant. |
| CacheSafety.StepKeepsInv | internal/snapshot/snapshot.go:150-231 | Every step of every call keeps the invariant. |
| CacheTheorems.RunInv | internal/snapshot/snapshot.go:150-231 | The invariant holds in every state of every run, with crashes. |
| CacheTheorems.LocksOfOthersStay | internal/diskcache/cache.go:44-87 | A step of one call neither gives nor takes a lock of another. |
| CacheTheorems.LocksAreTakenFree | internal/diskcache/cache.go:44-87 | A lock is granted only while it is free: the writer lock from nobody, an exclusive lock while no other call holds the entry, a shared one while no other holds it exclusively. |
| CacheTheorems.ExclusiveNeedsWriter | internal/snapshot/snapshot.go:170-191 | An entry is locked exclusively only by the call that also holds the writer lock, and while nobody shares it: the defer order releases the entry first. |
| CacheTheorems.RemoverHolds | internal/diskcache/cache.go:145-156 | Whoever removes a commit directory holds its exclusive lock, and is not about to downgrade it. |
| CacheTheorems.NobodyRemovesServed | internal/diskcache/cache.go:145-160 | Whoever could remove a served directory is the server itself, before its downgrade. |
| CacheTheorems.OnlyPublishAndRemove | internal/snapshot/snapshot.go:224-230 | A commit directory appears by publication, disappears by removal, and changes in no other way. |
| CacheTheorems.StepKeepsServed | internal/snapshot/snapshot.go:192-198 | No step of anybody removes or changes a served directory, not even in the gap of a drop-then-take downgrade. |
| CacheTheorems.ReaderSafety | internal/snapshot/snapshot.go:144-149 | From the moment Ensure has found or published a snapshot until Release, in every interleaving, it stays published, complete and the same copy. |
| CacheTheorems.PublicationAtomic | internal/snapshot/snapshot.go:144-149 | In every reachable state, crashes included, a commit directory is absent, or complete with metadata. |
| CacheTheorems.StepConverges | internal/snapshot/snapshot.go:175-201 | While a commit directory is there, no step publishes it again or changes it. |
| CacheTheorems.CopyStays | internal/snapshot/snapshot.go:144-149 | Between two deletions the directory is one and the same copy. |
| CacheTheorems.PublicationConverges | internal/snapshot/snapshot.go:144-149 | Between two deletions there is at most one publisher, and everybody who arrives later reports a hit on its copy. |
| CacheTheorems.BusyCanStep | internal/diskcache/cache.go:25-42 | A call that neither waits, reads nor idles can always take a step that gets it on. |
| CacheTheorems.WriterHolderProceeds | internal/snapshot/snapshot.go:170-184 | The holder of the writer lock can step, or waits for an entry whose holders can. |
| CacheTheorems.DeadlockFree | internal/snapshot/snapshot.go:160-184 | In every reachable state, behind every waiting call there is one, at most two locks away, that can step without a timeout, a failure or a release. |
| DiskTree.BytesSplit | internal/diskcache/cache.go:89-109 | The bytes of a disk are those of any two parts that split it. |
| DiskTree.RemoveOne | internal/diskcache/cache.go:152-160 | In a prefix-free listing the size measured late is the size at first, and each byte is subtracted once. |
| DiskTree.ListingIsPrefixFree | internal/diskcache/cache.go:200-207 | No listed entry lies below another one. |
| DiskTree.NamedEntryIsListed | internal/diskcache/cache.go:197-200 | An extraction directory or Git repository stays listed whatever is written anywhere. |
| DiskTree.CommitDirListing | internal/snapshot/snapshot.go:338-359 | Whatever owner and repository are called, a commit directory is listed exactly when it has metadata, and nothing above or below it is. |
| DiskTree.BytesOfImage | internal/snapshot/snapshot.go:508-510 | Renaming moves no bytes. |
| DiskTree.RenamingKeepsTree | internal/snapshot/snapshot.go:508-510 | Renaming to a free place in an existing directory leaves every file and directory in directories, and no path both. |
| Eviction.EvictedIsPrefix | internal/diskcache/cache.go:137-161 | The loop removes the oldest of the entries it may remove, and stops for good once the request fits and nothing left is expired. |
| Eviction.EvictedIsNeeded | internal/diskcache/cache.go:138-141 | Each removal was of an expired entry, or happened while the request did not fit. |
| Eviction.EvictionIsRight | internal/diskcache/cache.go:122-166 | Least recently used first, every expired removable entry gone, and each unexpired one removed only while what was then on disk and the request exceeded the limit. |
| Eviction.RefusalIsExact | internal/diskcache/cache.go:162-165 | After the loop the request fits exactly when it fits beside the bytes that nothing can free. |
| Eviction.KeptStays | internal/diskcache/cache.go:111-120 | Eviction takes nothing from inside the kept entry. |
| Eviction.RemovedSizes | internal/diskcache/cache.go:152-160 | Removing entries one by one frees exactly the sum of their sizes. |
| DiskCache.Disk.Size | internal/diskcache/cache.go:90-109 | The loop sums exactly the regular files at or below a path. |
| DiskCache.Disk.RemoveAll | internal/diskcache/cache.go:154 | What lies at or below a path is gone, all else stays, and the tree stays a tree. |
| DiskCache.Disk.MkdirAll | internal/snapshot/snapshot.go:207-209 | Succeeds exactly if no file stands in place of the path or of a parent; then exactly these directories are added. |
| DiskCache.Disk.Rename | internal/snapshot/snapshot.go:508-510 | Everything at or below a path, and nothing else, moves; the tree stays a tree and the bytes stay the same. |
| DiskCache.Disk.Walk | internal/diskcache/cache.go:173-209 | The walk that skips .locks and does not enter entries finds exactly the candidates with no candidate above them. |
| DiskCache.Disk.Entries | internal/diskcache/cache.go:173-212 | Every entry once, with its modification time, oldest first; ties in any order. |
| DiskCache.Budget.MakeRoom | internal/diskcache/cache.go:122-166 | Refuses if and only if the bytes outside removable entries plus the request exceed the limit; afterwards the request fits; the removals are the right ones. |
| DiskCache.Budget.Visit | internal/diskcache/cache.go:137-160 | An entry goes unless the request fits and it is not expired, or it is kept, or its lock is held. |
| DiskCache.Budget.Reserve | internal/diskcache/cache.go:215-237 | Grants growth exactly if it is known to be free or room can be made; accounts for it; touches nothing with room in hand, and never the kept entry. |
| Quota.ReservedKeepsSound | internal/diskcache/cache.go:214-237 | A granted reservation leaves used, free and the promised growth within the limit; a refused one keeps the books sound although entries were evicted. |
| Quota.StepKeepsSound | internal/diskcache/cache.go:214-237 | Every charged change, refusal or deletion keeps used plus free within the limit. |
| Quota.QuotaOverRuns | internal/diskcache/cache.go:214-237 | Once room has been made, the bytes on disk are within the limit in every state of every run. |
| Quota.ReservedKeepsBacked | internal/diskcache/cache.go:214-237 | Whatever it has to evict, a granted reservation leaves used, free and the promised growth within the limit together. |
| Quota.OnceWithin | internal/diskcache/cache.go:214-237 | In a history whose changes each end within the limit, or add nothing, the limit holds at every moment after the first at which it holds. |
| BudgetFiles.ChargeCovers | internal/diskcache/filesystem.go:56-73 | What a write is charged covers what it adds, short writes and holes included, for all writes exactly when the handle appends or the record is not too high. |
| BudgetFiles.RecordStaysAccurate | internal/diskcache/filesystem.go:56-73 | An accurate record stays accurate exactly for writes that do not begin beyond the end, or are ordinary and not empty. |
| BudgetFiles.RecordErrsHigh | internal/diskcache/filesystem.go:70-72 | The record never falls below the real size. |
| BudgetFiles.WritingKeepsBalance | internal/diskcache/filesystem.go:56-73 | Bytes used, bytes known to be free and bytes recorded but not written never rise together in a write with room in hand; a write that has the disk measured again adds exactly what was prepaid, if it is whole. |
| BudgetFiles.BalanceOverRuns | internal/diskcache/filesystem.go:56-85 | In any run of writes, truncations and seeks between two measurements this sum never rises, so the disk stays within it, accurate record or not. |
| BudgetFiles.FundedWritesFit | internal/diskcache/filesystem.go:56-73 | All writes with room in hand stay within a limit if and only if used, free and prepaid bytes do together (used and free, for an appending handle). |
| BudgetFiles.RemeasuringForgetsPrepaid | internal/diskcache/cache.go:220-235 | The concrete breach: an empty write at offset 100 is charged 100, the disk is measured again for one byte of another file, and then 100 bytes are written uncharged: 101 bytes within a limit of 100. |
| BudgetFiles.BudgetFile.Write | internal/diskcache/filesystem.go:56-73 | Refused exactly when the reservation is; otherwise the file grows as the system grows it, with the balance above. No change takes the disk beyond the limit if used and free are within it together and the record is not too high or the handle appends, or if there is room in hand and the balance is within it. |
| BudgetFiles.BudgetFile.Truncate | internal/diskcache/filesystem.go:74-85 | Sets length and record alike, charging the growth first; with room in hand the balance never rises. |
| BudgetFiles.BudgetFile.Charge | internal/diskcache/filesystem.go:66-69 | Reserving for one file may evict others, but nothing the writer keeps. |
| BudgetFiles.OpenFile | internal/diskcache/filesystem.go:21-32 | Fails exactly for a directory, a missing file that is not to be created, or a file in place of a parent; otherwise starts with an accurate record, and creating or truncating adds no bytes. |
| Extraction.WriteEntry | internal/snapshot/snapshot.go:454-468 | A file entry is charged its size, or the difference if it replaces a file, and refused room exactly if that is not in hand and does not fit beside what nothing can free; else it succeeds or fails exactly as the specification of one file entry says, and leaves that content. One step of the books. |
| Extraction.UnpackEntry | internal/snapshot/snapshot.go:434-468 | One header: skipped, refused, a directory with its parents, or a file of exactly its size. Unless room is refused, success, error and content are those of `Archive.AddEntry`; nothing else in the kept entry changes. |
| Extraction.ExtractArchive | internal/snapshot/snapshot.go:389-470 | Unless room is refused, which cannot happen while the disk and the whole archive fit the limit together, it succeeds exactly if the entries can be unpacked and the wrapper removed, with the error of the first thing that cannot be done; on success the destination holds exactly the unwrapped content and the statistics count the entries. If used and free were within the limit together, they still are, and no change took the disk beyond it. |
| Flattening.FlattenArchivePrefix | internal/snapshot/snapshot.go:487-513 | On the disk, a single top-level directory gives way to its content unless one of its entries has its name; all else, there and elsewhere, is left alone, and no bytes are moved. |
| Flattening.MoveOne | internal/snapshot/snapshot.go:499-511 | One entry moves up with everything below it, unless it has the name of the wrapper; those before it have moved, and nothing else. |
| Extraction.WriteMetadata | internal/snapshot/snapshot.go:233-261 | The document and its newline are charged before they are written beside the snapshot; refused exactly as other growth is; only a directory of that name is in the way. |
| Extraction.Fill | internal/snapshot/snapshot.go:203-223 | Without a limit, or while the disk, the archive and the document fit it together, it fails exactly if .tmp is a file or the archive cannot be extracted. On success the temporary directory holds exactly the unwrapped archive and the metadata, on failure nothing is left; no change in the history of the disk takes it beyond the limit, and elsewhere files are only evicted. |
| SafeNames.TargetsAreInside | internal/snapshot/snapshot.go:531-550 | Every target lies strictly below the destination, along components that are no dots and hold no slash and no NUL. |
| SafeNames.AcceptedNames | internal/snapshot/snapshot.go:531-550 | A name is accepted if and only if it is relative, has no NUL, never climbs above the destination on its way, and ends below it. |
| SafeNames.CleanIsDepth | internal/snapshot/snapshot.go:541-544 | Cleaning leaves as many plain components as the name is deep, unless the name climbs out somewhere; then it begins with two dots. |
| SafeNames.CleanAgain | internal/snapshot/snapshot.go:541-545 | Cleaning a clean path changes nothing. |
| SafeNames.TargetIsClean | internal/snapshot/snapshot.go:541-545 | The components of a target lead to that target again. |
| SafeNames.RootEntryIsRefused | internal/snapshot/snapshot.go:443-447 | No name leads to the destination itself, and one that cleans to nothing is refused, so the branch that would ignore it never runs. |
| SafeNames.SafeBelow | internal/snapshot/snapshot.go:531-550 | A safe name behind the name of a directory leads to its own target in that directory. |
| Archive.UnpackIsExact | internal/snapshot/snapshot.go:413-469 | Order does not matter for success: entries are unpacked exactly if there are no more than allowed, each has a safe name and is delivered whole, and no name stands both for a file and for a directory. Then exactly these files, the last of each name, and the directories they need are there. |
| Archive.ExtractedIsExact | internal/snapshot/snapshot.go:413-513 | Extraction into a new directory succeeds if and only if there are no more entries than allowed, each is safe and whole, at least one is a file or directory, no name stands for both, and no wrapper holds an entry of its own name. |
| Archive.WrappedArchive | internal/snapshot/snapshot.go:484-513 | An archive wrapped in one directory ends as its own content, unless that has an entry with the name of the wrapper; then it is refused. |
| Archive.StatsCount | internal/snapshot/snapshot.go:466-467 | The counted bytes are the sum of the sizes of all file entries, replaced ones included. |
| Archive.FlattenUndoesWrap | internal/snapshot/snapshot.go:484-505 | Flattening undoes wrapping if and only if the content has no entry named like the wrapper. |
| Archive.ClashExample | internal/snapshot/snapshot.go:503-507 | A repository called app with a directory app at its root is refused. |
| Archive.FlattenLeavesUnwrapped | internal/snapshot/snapshot.go:484-486 | Content without a wrapper is left alone if and only if it is not a single directory. |
| Archive.BoundedReader.Read | internal/snapshot/snapshot.go:565-575 | A read into any buffer, the empty one included, passes the next bytes, as many as buffer, limit and stream allow, and is refused exactly when the maximum has passed; the end is reported exactly at the end. |
| Archive.Drain | internal/snapshot/snapshot.go:552-575 | Whatever the buffers and pieces, empty ones included, a stream that is read to an end passes whole exactly when it is shorter than the maximum, or as long and its end comes with its last bytes; else exactly the maximum passes. More productive reads than bytes get to an end. |
| CommitGraph.PruningIsDifference | internal/gogs/gitdiff.go:741-755 | Stopping at all ancestors of a commit leaves exactly the ancestors of the head that are not ancestors of it. |
| CommitGraph.FrontierDone | internal/gogs/gitdiff.go:747-773 | When the stack is empty, what was seen is everything reachable outside the excluded commits. |
| CommitGraph.RankMeansAcyclic | internal/gogs/gitdiff.go:741-755 | A store with a rank that falls along parents has no cycle. |
| CommitGraph.WalkingVisits | internal/gogs/gitdiff.go:751-772 | One visit keeps the invariant of the walk and lowers the number of commits not seen. |
| CommitGraph.ReadCommit | internal/gogs/gitdiff.go:759-770 | Reads a commit exactly if it is there, decodes, and is within the limits of 1 MiB and 64 MiB. |
| CommitGraph.ReachableCommits | internal/gogs/gitdiff.go:742-775 | Returns every commit reachable outside the excluded ones, or an error exactly when that set is unreadable or over the limits. |
| MergeBases.PrunedWalk | internal/gogs/gitdiff.go:719-726 | The pruned walk succeeds if and only if the difference itself is within the limits. |
| MergeBases.CommitsSince | internal/gogs/gitdiff.go:715-739 | Each commit of the head's history outside the merge base's exactly once, newest first, or an error exactly when the limits are exceeded; never a part. |
| MergeBases.ReportsPermute | internal/gogs/gitdiff.go:727-737 | Sorting the reported commits keeps each hash exactly once. |
| MergeBases.DirectParentsSuffice | internal/gogs/gitdiff.go:924-938 | A common ancestor is a best one exactly when no common ancestor has it as a direct parent. |
| MergeBases.MaximalExists | internal/gogs/gitdiff.go:933-938 | Every finite non-empty set of commits of an acyclic store has one that no other reaches. |
| MergeBases.BasesAreBest | internal/gogs/gitdiff.go:909-941 | The answer is the best common ancestors, and is empty only if the histories do not meet. |
| MergeBases.History | internal/gogs/gitdiff.go:909-923 | The set of ancestors of a commit, or an error exactly when that history cannot be walked within the limits. |
| MergeBases.BoundedMergeBases | internal/gogs/gitdiff.go:909-941 | Exactly the best common ancestors, ascending, each once; an error exactly when one of the histories cannot be walked. |
| MergeState.TouchedPaths | internal/gogs/gitdiff.go:495-507 | Exactly the non-empty source and destination paths. |
| MergeState.Intersect | internal/gogs/gitdiff.go:481-489 | The paths in both sets, each once, sorted. |
| MergeState.MergeStateFor | internal/gogs/gitdiff.go:460-493 | Counts the base commits exactly; fast_forward when there are none; else conflicting exactly when both sides touch a path, and the list is those paths, sorted. |
| MergeState.BaseTipIsMergeBase | internal/gogs/gitdiff.go:282-288 | If the base tip is an ancestor of the head, it is the only best common ancestor. |
| MergeState.NothingSinceMeansTip | internal/gogs/gitdiff.go:465-471 | The base branch has nothing since the merge base exactly when its tip is the merge base. |
| MergeState.FastForwardMeansAncestor | internal/gogs/gitdiff.go:282-288 | No base commits since the merge base, if and only if the base tip is an ancestor of the head. |
| MergeState.ComparePull | internal/gogs/gitdiff.go:269-319 | Succeeds exactly if both histories and the commits after the merge base can be walked, they meet, and the trees and diffs that are needed can be read; otherwise names the failure. The merge base is the smallest best one; fast_forward holds exactly when the base tip is an ancestor of the head; conflicts are the paths touched on both sides. |
| Utf8.CutValid | internal/mcpserver/budget.go:23-46 | Cutting valid UTF-8 at a rune start leaves two valid texts. |
| BodyChunks.BodyChunk | internal/mcpserver/budget.go:23-46 | The two loops find the next rune start and the last one within the limit. |
| BodyChunks.ValidateBodyOffset | internal/mcpserver/budget.go:163-168 | Accepts exactly the boundaries of the body. |
| BodyChunks.ChunkEndIsLast | internal/mcpserver/budget.go:32-42 | A chunk ends at the last boundary within the limit, or behind one rune that alone exceeds it. |
| BodyChunks.ChunkOfValidBody | internal/mcpserver/budget.go:23-46 | A chunk from an accepted offset is valid UTF-8, makes progress, keeps every limit of four bytes or more, and ends at an offset that is accepted again. |
| BodyChunks.FollowRebuilds | internal/mcpserver/budget.go:48-56 | Following next_body_offset rebuilds the body, whatever maxima are asked for. |
| JsonText.EncodedLengthJoin | internal/mcpserver/contents.go:246-249 | Escaped lengths add up over valid text. |
| JsonText.BoundedJsonPrefix | internal/mcpserver/contents.go:229-244 | For any bytes, the prefix that the scan over code points gives; of valid text it is the longest prefix of whole code points whose escaped length is within the budget. |
| JsonText.BudgetNeedsValidText | internal/mcpserver/contents.go:229-244 | The budget is kept for every maximum if and only if the text is valid UTF-8. |
| FileRanges.LinesRebuild | internal/mcpserver/contents.go:218-227 | The joined lines and the trailing newline are the file. |
| FileRanges.JoinedLength | internal/mcpserver/contents.go:173-197 | One more line costs its escaped length and two bytes. |
| FileRanges.BoundedFile | internal/mcpserver/contents.go:134-211 | Classifies the file, keeps every reply within 56 KiB escaped, and shows the longest run of requested lines that fits, or the longest prefix of one line that does not. |
| FileRanges.SelectLines | internal/mcpserver/contents.go:168-210 | The loop selects exactly that range and hands out the right continuation. |
| FileRanges.RangeIsMaximal | internal/mcpserver/contents.go:173-197 | A range fits, and one line more is not asked for or would not fit. |
| FileRanges.EveryLineOnce | internal/mcpserver/contents.go:134-211 | Following next_start_line ends, and visits every line exactly once, in order. |
| FileRanges.RepliesRebuildLines | internal/mcpserver/contents.go:134-211 | If no line is over the budget, the joined replies are the joined lines. |
| FileRanges.FileRebuilds | internal/mcpserver/contents.go:134-227 | Reading a text file to its end gives back its bytes, if no line is over the budget. |
| DiffText.LimitedDiffWriter.Write | internal/gogs/gitdiff.go:833-850 | The buffer is always the longest part of what was offered that fits; a short write is reported and marks truncation. |
| DiffText.TruncateToLastLine | internal/gogs/gitdiff.go:820-829 | The longest prefix within the limit that is empty or ends a line. |
| DiffText.Encode | internal/gogs/gitdiff.go:895-899 | However the encoder splits its output, and though it stops at the limit, the buffer is that of the whole output. |
| DiffText.BuildBoundedPullDiff | internal/gogs/gitdiff.go:881-907 | The whole diff if it fits, else its longest prefix within the limit that ends a line; truncated exactly then; statistics complete. |
| PullCursor.ScanPullRefs | internal/gogs/pull.go:111-141 | A call replies with the wanted pulls among the refs from below the cursor to where it stops, and the cursor of that place, or the error of a request it made. |
| PullCursor.AddShown | internal/gogs/pull.go:124-137 | A ref adds its summary exactly if its issue is readable and in the state. |
| PullCursor.ListPullRequests | internal/gogs/pull.go:85-107 | Bad states and negative cursors are refused, exactly; else the reply is that of the clamped limit, never more than it, and the cursor strictly decreases. |
| PullCursor.PageBounds | internal/gogs/pull.go:111-141 | A call examines at most a hundred refs and shows at most the limit, and stops early only at one of the two. |
| PullCursor.BelowCursor | internal/gogs/pull.go:116-120 | A cursor leads back to exactly the place where the call before it stopped. |
| PullCursor.CursorIsComplete | internal/gogs/pull.go:92-141 | A client that follows next until zero, reply by reply, sees every readable pull in the state exactly once, newest first, through empty pages; or an error exactly if a request made on the way fails. |
| LiteralSearch.FindAllIndex | internal/snapshot/pattern.go:66-79 | Disjoint ascending occurrences, and every occurrence is reported or begins inside a reported one. |
| LiteralSearch.LiteralIsGreedy | internal/snapshot/pattern.go:66-79 | The matcher as a function of the line reports the leftmost greedy disjoint occurrences. |
| LiteralSearch.GreedyIsUnique | internal/snapshot/pattern.go:66-79 | There is only one such list of occurrences. |
| LiteralSearch.GreedyStaysAhead | internal/snapshot/pattern.go:66-79 | The n-th reported occurrence ends no later than the n-th of any disjoint selection. |
| LiteralSearch.GreedyIsMaximum | internal/snapshot/pattern.go:66-79 | No disjoint selection of occurrences is larger. |
| FileSearch.SearchContent | internal/snapshot/search.go:250-273 | The first maxResults of all matches of the file, with line, column, line text and context. |
| FileSearch.MatchesOrdered | internal/snapshot/search.go:250-273 | With any matcher of disjoint ranges, matches come in order of line and column. |
| FileSearch.SearchLiteral | internal/snapshot/search.go:250-273 | With the literal matcher: the first maxResults leftmost greedy occurrences, strictly ascending by line and column, each one real; if fewer than the maximum come back, every occurrence in the file is reported or begins inside a reported one. |
| FileSearch.ContextIsAround | internal/snapshot/search.go:275-292 | The context is the lines up to count before and behind, in order, without the line itself, cut at the ends of the file. |
| FileSearch.TruncatedLine | internal/snapshot/search.go:294-300 | A valid line of at most 500 code points is shown whole; of a longer one a valid prefix of 500 code points and an ellipsis. |
| UserCache.Cache.Get | internal/httpserver/users.go:53-66 | A fresh entry is returned and moved to the front, an expired one is removed; the map and the list always stand for one list of distinct hashes. |
| UserCache.Cache.Put | internal/httpserver/users.go:71-92 | An entry already there is returned and nothing changes, even if it has expired; else the new one goes in front and the cache shrinks to its capacity from the back. |
| UserCache.Cache.EvictOldest | internal/httpserver/users.go:81-90 | The surplus leaves from the back, oldest first, and nothing else. |
| UserCache.Cache.Remove | internal/httpserver/users.go:94-99 | Takes one entry out of both the map and the list. |
| UserCache.Cache.Invalidate | internal/httpserver/users.go:268-274 | Removes the entry of a hash, if any, and nothing else. |
| UserHistory.OrderIsLastUse | internal/httpserver/users.go:53-92 | After any sequence of operations the list is ordered by last use, and never longer than its capacity. |
| UserHistory.VictimIsLeastRecentlyUsed | internal/httpserver/users.go:81-90 | What put evicts was used less recently than anything it leaves, and is never the new entry. |
| UserHistory.ExpiryIsFixed | internal/httpserver/users.go:53-92 | Every entry expires at the time of the put that brought it in plus the TTL; hits never extend it. |
| UserHistory.GetIsFresh | internal/httpserver/users.go:53-66 | Get never returns an entry later than the TTL after the put of that entry. |
| UserHistory.InvalidTokens.Has | internal/httpserver/users.go:125-137 | A mark counts until its time and is removed after it. |
| UserHistory.InvalidTokens.Add | internal/httpserver/users.go:139-146 | A full set is emptied first, so it never exceeds its capacity. |
| SingleFlightTheorems.StepKeepsInv | internal/httpserver/users.go:161-227 | Every step of resolve and buildUser keeps the invariant of calls, registrations and slots. |
| SingleFlightTheorems.WorldKeepsInv | internal/httpserver/users.go:253-274 | So does everything that happens beside the requests: expired or evicted entries, marks that go, and marks added when Gogs rejects a token outside a probe. |
| SingleFlightTheorems.RunInv | internal/httpserver/users.go:161-227 | The invariant holds in every state of every run, while cache entries and marks come and go. |
| SingleFlightTheorems.OneProbePerToken | internal/httpserver/users.go:170-192 | At any moment at most one request resolves a given token. |
| SingleFlightTheorems.EightProbesAtMost | internal/httpserver/httpserver.go:160 | At any moment at most eight requests probe. |
| SingleFlightTheorems.NoFinishedCallRegistered | internal/httpserver/users.go:182-187 | A registered call has not finished, so nobody joins a finished one. |
| SingleFlightTheorems.FinishedStays | internal/httpserver/users.go:149-154 | A finished call never changes. |
| SingleFlightTheorems.AllShareOneResult | internal/httpserver/users.go:170-191 | All who return the result of a call, whenever, return the same result, for the same token, and only its leader returns it as leader. |
| SingleFlightTheorems.OtherwiseItsOwnError | internal/httpserver/users.go:172-177 | A request returns a cached user, a known rejection, the result of a finished call, or its own context's error. |
| SingleFlightTheorems.NobodyWaitsInVain | internal/httpserver/users.go:170-201 | A waiter can wake, or its leader can work, or its leader waits for a slot whose holders can all work. |
| SingleFlightTheorems.LeaderAdvances | internal/httpserver/users.go:182-201 | Each step of a leader brings its call nearer to its close, at most six steps away; no other request moves it back. |
| Sorting.Sort | internal/gogs/gitdiff.go:732-737 | A permutation of its input in the given total order. |
| Sorting.StringOrder | internal/gogs/gitdiff.go:489 | The order of strings is total and transitive. |

## Left out

* Contexts, clocks, network calls and I/O errors are parameters or abort steps; `now` is fixed within one call of `MakeRoom`, `get` or `put`, and the locks that `MakeRoom` meets are given as a set.
* `os.RemoveAll` is one atomic step in the protocol; a crash or an I/O error in the middle of it is not modelled.
* In the protocol any unheld entry but the kept one may be evicted at any time; which ones really are is the subject of the sequential model. Modification times are therefore absent from the protocol.
* The legacy `tmp`, `pull` and `users` cleanup paths, symbolic links, the mode check of the lock directory, and hash collisions of lock names.
* Starvation: the protocol is free of deadlock, but `Acquire` polls and promises no fairness.
* The rename that publishes a snapshot is a step of the protocol; `Extraction.Fill` ends just before it, and a rename moves no bytes (`DiskCache.Disk.Rename`).
* A re-measurement while the reserved growth of another file is still unwritten, and several open handles on one file.
* CacheProtocol.Step: the modification times refreshed by a hit and by DiffPull, and the metadata document itself, are not part of its state.
* BudgetFiles.BudgetFile.Write: that it is a step of the books by itself is stated for a record that is not above the real size or an appending handle, since it is false otherwise; for all records the balance takes its place.
* BudgetFiles.OpenFile: flags other than create, truncate and append; `TempFile` is the case of a new name.
* Extraction.ExtractArchive: tar and gzip decoding are inputs: a header says how many bytes its file delivers. The destination lies right below the kept entry, as in `Ensure`, and names are sequences of characters. That a full disk refuses room is exact for each entry (`Extraction.WriteEntry`); for whole archives only a sufficient room is named.
* Extraction.Fill: the name of the temporary directory is given, and not in use, as `os.MkdirTemp` chooses it.
* 64-bit overflow: sizes and sums are unbounded integers.
* go-git: fetching, tree diffs, rename detection, path filters and patch encoding are inputs. Commit hashes are numbers, dates are integers, and the store is assumed to keep a commit under its own hash.
* MergeState.ComparePull: trees and their diffs are inputs that may fail; the limits on diff inputs are such failures.
* Search: RE2, globs, walking directories, and the limits across several files; `FileSearch.SearchContent` takes any matcher, and the literal one is proved.
* Page-number pagination, the comment cursor, `trimOutput`, `toolBudget` and the meta fields that `boundBody` sets.
* PullCursor.CursorIsComplete: refs are strictly ascending and positive, and neither they nor the issues change between calls.
* A panic inside `buildUser`, and "one probe per token ever": the code guarantees one at a time.
* HTTP, TLS, retries, configuration, logging, schemas and packaging.
