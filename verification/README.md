# A verified model of the ETL engine of Planetary Computer Tasks

The project models the parts of `pctasks` that decide what data is found, ingested, retried and
recorded, and proves what they promise for every input, every completion order and every
interleaving of workers.

* **The storage walk** (`StorageWalk`, `StorageWalkTheorems`, `WalkStrings`): the level-by-level
  listing of a blob container. The futures of a level are consumed in any order. The set of
  visited folders, the file lists and the three limits are characterised without reference to
  the algorithm, and the string operations are shown to be operations on path segments.
* **Paths and URIs** (`PosixPath`, `BlobUris`, `UrlForms`, `StoragePaths`, `StorageUris`): URL splitting, `BlobUri`, and the
  two-way translation between paths in a storage and URIs.
* **The streaming queue** (`QueueProtocol`, `StreamingRun`, `StreamingAttempts`,
  `StreamingDeletes`, `ItemRecords`, `ItemStream`, `ItemContents`, `ItemDelivery`): several workers on a queue with visibility timeouts, as a state machine over
  their steps; the loop of one worker, as code, with a proof that it is a run of that machine,
  alone and among others; the create-items task with its keyed upserts on top of the same
  machine, and one of its deliveries as code.
* **Bulk ingest** (`Grouping`, `NdjsonText`, `NdjsonLoad`, `NdjsonPool`, `NdjsonIngest`,
  `NdjsonTheorems`, `NdjsonSharing`, `PgStac`, `PgStacTheorems`, `PgStacStream`,
  `PgStacCollections`): preparing chunk files in processes that finish at any time and may write the
  same file, queueing, flushing and deleting them, grouping, first-wins deduplication, upserts that
  may fail after any item, and the retry on a broken connection, up to the table that a whole call
  leaves, whatever failed in it.
* **Templates** (`TemplateText`, `TemplateSubst`, `TemplateDict`, `TemplatePositions`, `FindValue`,
  `FindPaths`): the substitution language of workflow files, applied in phases.
* **Job order and bulk puts** (`JobOrder`, `BulkPut`): Kahn's algorithm and the grouping of
  records by partition key.

`Common` and `Text` hold what several modules share. Loops and objects that the source updates
in place are methods and classes here; each is tied to a specification function, and the
properties are proved of that function.

Where the code does not do what it documents, or what one would expect of it, the model follows
the code, and lemmas give the exact condition and an input on which it fails:

* `walk_limit` is looked at only between levels, so more folders than the limit can be yielded
  (`WalkLimitKept`, `WalkLimitKeptEither`, `WalkLimitExceeded`).
* A blob below a folder with an empty name is never found by the walk (`DefaultWalkFinds`,
  `EmptySegmentHides`).
* A storage whose prefix is empty but not missing cannot name its own root, so a walk from there, or
  from slashes below it, raises (`StripPrefixFails`, `RootBelowPrefix`, `StorageWalk.Walk`).
* Below a storage prefix the folders "." and ".." of a level have other depths than their
  neighbours, whose depth the loop may take for theirs; the depth options count segments exactly
  when normalising leaves as many as there were (`DepthsCountExactly`, `DepthsOfNames`,
  `DotFolderDepths`).
* `get_path` tests whether the prefix occurs anywhere in the blob name, so it accepts blobs outside
  the prefix and gives them paths that climb out of it (`AcceptedUris`, `OutsideClimbs`,
  `OutsideAccepted`).
* A failing delivery without a dequeue count is never deleted, so the number of attempts is
  bounded only if every failure with a count of 3 or more deletes (`AttemptsBoundedExactly`,
  `UnboundedAttempts`, `UncountedStay`); the loop keeps the bound when counts are reported and no
  delete is refused (`AttemptsOfLoops`).
* A retried load from a file handle skips what the first attempt had read and not stored, and
  forgets which ids it had seen. A caller avoids this with a positive group size or an input that
  can be read twice; without either it is harmless only if the table already holds every item
  (`StreamRetryComplete`, `StreamRetrySafe`, `RetryOverwrites`, `IngestHandle`, `IngestItems`).
* The recorded line count of a chunk need not bound its items when it has lone carriage returns
  (`LineCountBound`, `LineCountExceeded`).
* A blank line inside a chunk, or an empty chunk before another, makes its flush fail
  (`ReadableChunks`, `EmptyChunkUnreadable`).
* A chunk is prepared in a file named after the last part of its uri, or after its blob name without
  account and container, so chunks of one call may overwrite each other's file. Then a flush loads
  one of them twice, succeeds, and reports the other as ingested as well; which one depends on the
  order of preparation. A second deletion of such a file raises unless it was written again. Every order stores every item if and
  only if no two different chunks share a file, which a caller can see from the uris
  (`EveryOrderStores`, `SameNameLoses`, `DistinctPaths`, `IngestNdjsons`).
* `unique_items` compares ids alone, while rows are kept for a collection and an id: of two
  collections with one id, the row of one is lost exactly when both come in the same block
  (`DroppedRow`, `FinalKeyRow`, `GroupsStoreAll`).
* An index of 0 in a template path is ignored (`IndexSelects`, `FindsAtIndex`).
* A placeholder with a quotation mark is none, so the documented `${{ local.file("x") }}` stays as it is
  (`QuotedIsNone`, `LocalFileStays`).
* A message that passes without a next visible time is not deleted (`LeavesExactly`).
* A `message_limit` of 0 is no limit (`LimitIsExact`).
* An item with a version of null gets a StacItem and an ItemUpdated record with different version
  texts (`ItemsArePaired`, `NullVersionUnpaired`).
* A maximum bulk-put size of 0 drops all records (`GroupsKeepAll`).

## Model

| member | source | states |
|---|---|---|
| `StorageWalk.Walk` | pctasks/core/pctasks/core/storage/blob.py:549-626 | For every completion order: every yielded entry is a reachable folder with all its subfolders and an initial part of its matching files, roots are distinct and their depth never decreases, the file counter is the number of distinct matching files so far; without limits every reachable folder is visited with all its files; with a file limit exactly min(limit, matching files) are counted; with a walk limit whole levels are visited; with both, whichever limit is reached first stops it in this way; it raises, before any yield, exactly when it starts from nothing but slashes below an empty storage prefix and no limit keeps it from looking at them; and it terminates. A walk with a depth option is one in which the computed depths of its folders count their segments, which `WalkStrings.DepthsCountExactly` characterises |
| `StorageWalk.WalkLevel` | pctasks/core/pctasks/core/storage/blob.py:557-626 | One round keeps the level invariant: the prefixes are exactly the reachable folders of one depth, and everything shallower has been visited completely; only the first round can raise, exactly when the start is nothing but slashes below an empty prefix, and not only the top with a negative maximum depth |
| `StorageWalk.SubmitLevel` | pctasks/core/pctasks/core/storage/blob.py:564-578 | Below the walk limit a level whose prefixes have one computed depth is submitted as a whole or, beyond the maximum depth, not at all, and the leftover `prefix_depth` is that depth |
| `StorageWalk.ConsumeLevel` | pctasks/core/pctasks/core/storage/blob.py:580-624 | Whichever future completes next, the second loop keeps soundness, hits the file limit exactly when it breaks, and collects exactly the passed-on folders of the level |
| `StorageWalk.TakeFiles` | pctasks/core/pctasks/core/storage/blob.py:582-598 | The truncating slice is never negative, leaves the counter within the limit, and hits it exactly when it truncates; the loop breaks exactly when the limit was already used up and files remain |
| `StorageWalk.NextPrefixes` | pctasks/core/pctasks/core/storage/blob.py:603-621 | When the reused depth is the depth of the entry, the folders descended into are exactly those that pass the folder filter at their depth |
| `StorageWalk.GetPrefixContent` | pctasks/core/pctasks/core/storage/blob.py:512-540 | Lists each non-empty folder name below a prefix once and exactly the non-empty, recent blobs directly under it |
| `StorageWalk.FilterFiles` | pctasks/core/pctasks/core/storage/blob.py:584-592 | Keeps, in order, the files whose name or full path matches |
| `StorageWalk.SoundSnoc` | pctasks/core/pctasks/core/storage/blob.py:594-624 | Adding one newly visited folder keeps a walk sound and its counter exact |
| `StorageWalk.EmptyLevelEnds` | pctasks/core/pctasks/core/storage/blob.py:557-626 | An empty level means that every reachable folder has been visited |
| `StorageWalk.NextLevel` | pctasks/core/pctasks/core/storage/blob.py:616-626 | A folder is passed on by the visited entries exactly when it is a reachable folder of the next depth within the depth limit |
| `StorageWalkTheorems.ReachMeans` | pctasks/core/pctasks/core/storage/blob.py:528-531 | A folder is reachable exactly when some blob lies under it and every segment on the way is non-empty and passes the folder filter |
| `StorageWalkTheorems.EveryWantedBlobOnce` | pctasks/core/pctasks/core/storage/blob.py:549-626 | A walk without limits places a blob in exactly one file list, at one position, if it is not empty, not older than the date, its path matches, every folder name on the way is non-empty and passes the folder expression at its depth, and it is within the maximum depth; and in none otherwise |
| `StorageWalkTheorems.DefaultWalkFinds` | pctasks/core/pctasks/core/storage/blob.py:512-540 | With default options a non-empty blob is found if and only if every folder segment of its name below the start is non-empty |
| `StorageWalkTheorems.EmptySegmentHides` | pctasks/core/pctasks/core/storage/blob.py:528-531 | No walk of a container with the single blob a//b finds it |
| `StorageWalkTheorems.YieldedRoots` | pctasks/core/pctasks/core/storage/blob.py:603-624 | Without file and walk limits the yielded roots are exactly the start and the folders of blobs below it whose names are non-empty and pass the folder expression at their depths, between `min_depth` and `max_depth` |
| `StorageWalkTheorems.YieldedFolders` | pctasks/core/pctasks/core/storage/blob.py:528-531 | Every entry lists exactly the non-empty names of the folders below its root that hold a blob, each once, filtered or not |
| `StorageWalkTheorems.FileLimitIsExact` | pctasks/core/pctasks/core/storage/blob.py:594-622 | Compared with any unlimited walk, a file-limited walk counts min(limit, files of that walk) and yields no more than it counts |
| `StorageWalkTheorems.WalkLimitKept` | pctasks/core/pctasks/core/storage/blob.py:558-624 | The yields keep the walk limit if and only if all folders that would be yielded fit, or some whole number of levels has at least that many folders and yields no more than that many |
| `StorageWalkTheorems.WalkLimitKeptEither` | pctasks/core/pctasks/core/storage/blob.py:558-624 | With a file limit as well the same condition keeps the yields within the walk limit |
| `StorageWalkTheorems.WalkLimitExceeded` | pctasks/core/pctasks/core/storage/blob.py:558-569 | A container in which three folders are yielded under a walk limit of 2 |
| `WalkStrings.PrefixIsUnder` | pctasks/core/pctasks/core/storage/blob.py:518-527 | The listing's prefix test on strings is the prefix test on segments, and the slice after the prefix spells the remaining segments |
| `WalkStrings.ListingIsSegment` | pctasks/core/pctasks/core/storage/blob.py:518-539 | Slicing off the prefix and stripping slashes yields the next segment: of a folder when more follow, of the file when it is the last |
| `WalkStrings.DescendIsChild` | pctasks/core/pctasks/core/storage/blob.py:616-621 | Joining a folder name to the prefix string gives the prefix string of that folder |
| `WalkStrings.StartIsFolder` | pctasks/core/pctasks/core/storage/blob.py:283-289 | Whatever the storage prefix and the argument, the walk starts at the prefix string of a folder |
| `WalkStrings.StartPrefixMeans` | pctasks/core/pctasks/core/storage/blob.py:283-289 | The walk starts at the folder of the storage prefix when the argument is missing or empty, at the folder the argument names below it when it is relative, and at the one it names from the top when it is absolute; one final slash of the argument does not matter |
| `WalkStrings.StartIs` | pctasks/core/pctasks/core/storage/blob.py:283-289 | The segments a walk of the storage starts from are those of the prefix and of the argument, or those of an absolute argument alone |
| `WalkStrings.BelowStart` | pctasks/core/pctasks/core/storage/blob.py:283-289 | A blob lies below the start of a walk if and only if its name begins with the prefix, a slash, the argument and a slash |
| `WalkStrings.FilesBelowStart` | pctasks/core/pctasks/core/storage/blob.py:495-553 | Every file of a walk is a blob of the container whose name begins in this way |
| `WalkStrings.DepthWithoutPrefix` | pctasks/core/pctasks/core/storage/blob.py:498-510 | Without a storage prefix the depth is the number of segments without the empty ones at both ends, and that of all segments exactly when there are none |
| `WalkStrings.DepthBelowPrefix` | pctasks/core/pctasks/core/storage/blob.py:498-510 | Below any storage prefix the depth is the number of segments of the normalised way to the folder, which for proper names is the path itself; it raises exactly below an empty prefix when only slashes follow |
| `WalkStrings.DepthsCountExactly` | pctasks/core/pctasks/core/storage/blob.py:498-578 | The depth of every folder of a walk, as computed from its string, is its number of segments below the storage prefix if and only if for every such folder trimming, or normalising the way from the prefix, leaves as many segments as there were |
| `WalkStrings.DepthsOfNames` | pctasks/core/pctasks/core/storage/blob.py:498-578 | So it is when the folder names of the blobs below the prefix are proper or empty |
| `WalkStrings.DotFolderDepths` | pctasks/core/pctasks/core/storage/blob.py:498-578 | Below every non-empty prefix the folder "." has depth 0 and its neighbours have depth 1 |
| `WalkStrings.RootBelowPrefix` | pctasks/core/pctasks/core/storage/blob.py:600 | The yielded root is the normalised way from the prefix, "." for the prefix itself, and a ValueError exactly when only slashes are left to strip an empty prefix from |
| `WalkStrings.RootsDistinct` | pctasks/core/pctasks/core/storage/blob.py:600 | Two folders have the same root string if and only if they are the same or, below a prefix, their normalised ways are; for proper names these are the paths themselves |
| `WalkStrings.FullMatchIsPath` | pctasks/core/pctasks/core/storage/blob.py:587-588 | The string built for `match_full_path` is the path of the file, without empty segments at the end of the folder |
| `BlobUris.ParseName` | pctasks/core/pctasks/core/storage/blob.py:97-106 | For any name after a container, the parsed URI has this account and container and what is left of the name without dropped characters, query and fragment; an empty one counts as none |
| `BlobUris.ParsedIsPrintable` | pctasks/core/pctasks/core/storage/blob.py:97-106 | Whatever `BlobUri` accepts has no separator in account or container, a non-empty container, and a name that survives printing |
| `BlobUris.ShowParse` | pctasks/core/pctasks/core/storage/blob.py:126-130 | Printing and parsing undo each other for exactly the printable values |
| `BlobUris.Reparse` | pctasks/core/pctasks/core/storage/blob.py:97-130 | Re-parsing the printed form of any accepted URI gives the same account, container and blob name |
| `BlobUris.BaseUri` | pctasks/core/pctasks/core/storage/blob.py:132-135 | The base URI of any accepted URI parses to its account and container without a name |
| `UrlForms.SchemeDecidesParams` | pctasks/core/pctasks/core/storage/blob.py:97-106 | Leading blanks and upper case in the scheme do not matter; what follows a semicolon in the last segment is part of the name in a blob URI and is dropped in a web URL |
| `StoragePaths.UriOf` | pctasks/core/pctasks/core/storage/blob.py:306-334 | The URI of a path is the path itself if it is absolute, otherwise the container URI, the prefix if it is not empty, and the path, separated by single slashes |
| `StoragePaths.PathUriPath` | pctasks/core/pctasks/core/storage/blob.py:330-405 | `get_path(get_uri(p))` is `p` for every plain normalised relative path, with no, an empty or any plain storage prefix |
| `StoragePaths.PathUriPathDirect` | pctasks/core/pctasks/core/storage/blob.py:291-405 | Under a non-empty prefix a path is read back if and only if it is plain, climbs some levels above the prefix and then goes down names without a detour |
| `PosixPath.RelPathKept` | pctasks/core/pctasks/core/storage/blob.py:301 | The relative path of a joined path is the path that was joined if and only if it climbs and goes down without a detour |
| `PosixPath.RelativeOrigin` | pctasks/core/pctasks/core/storage/blob.py:301 | A relative path to somewhere below the start is made of ".." and of the segments that were joined |
| `StoragePaths.PathUriPathNoPrefix` | pctasks/core/pctasks/core/storage/blob.py:394-405 | Without a prefix exactly the plain paths that do not start with a slash are read back |
| `StoragePaths.AddStripPrefix` | pctasks/core/pctasks/core/storage/blob.py:291-304 | Stripping the prefix undoes adding it if and only if there is no prefix or the path is direct, and not empty below an empty prefix |
| `StoragePaths.StripPrefixFails` | pctasks/core/pctasks/core/storage/blob.py:297-304 | Stripping fails if and only if there is a prefix and the path has nothing but slashes |
| `StoragePaths.SubstorageUri` | pctasks/core/pctasks/core/storage/blob.py:314-325 | A path in a substorage has the URI of the joined path in the storage it was made from if and only if it is absolute, or the path of the substorage is relative and ends with at most one slash |
| `StoragePaths.StripMeans` | pctasks/core/pctasks/core/storage/blob.py:260 | The stored prefix has no slash at either end, and such a prefix is stored as it is |
| `StorageUris.UriPathUri` | pctasks/core/pctasks/core/storage/blob.py:330-405 | `get_uri(get_path(u))` is `u` if and only if `u` continues the URI of the storage with a plain path that is direct, or, without a prefix, does not start with a slash |
| `StorageUris.AcceptedUris` | pctasks/core/pctasks/core/storage/blob.py:394-405 | `get_path` accepts exactly the URIs of the own account and container whose blob name contains the prefix as a substring |
| `StorageUris.OutsideClimbs` | pctasks/core/pctasks/core/storage/blob.py:297-405 | An accepted URI is given a path that starts with ".." if and only if its blob is not below the prefix |
| `StorageUris.OutsideAccepted` | pctasks/core/pctasks/core/storage/blob.py:400-405 | For any folder names a and b, a storage with prefix a accepts the blob b/a/x and calls it ../b/a/x |
| `QueueProtocol.NoLoss` | pctasks/task/pctasks/task/streaming.py:144-187 | In every interleaving of workers, crashes and timeouts, a sent message is in the queue unless a passed delivery, or a failing one with a count of at least 3, deleted it |
| `QueueProtocol.GoneForGood` | pctasks/task/pctasks/task/streaming.py:144-187 | A removed message never comes back |
| `QueueProtocol.Always` | pctasks/task/pctasks/task/streaming.py:144-187 | Every run keeps the delivery counts of a message distinct and no larger than the count in the queue |
| `QueueProtocol.BoundedAttempts` | pctasks/task/pctasks/task/streaming.py:157-169 | In every run the handled failures of a message that do not delete it are at most two plus those with a count of 3 or more; when all of the latter delete, at most two |
| `QueueProtocol.AttemptsBoundedExactly` | pctasks/task/pctasks/task/streaming.py:162-169 | All runs keep the bound of two if and only if every failure with a count of at least 3 deletes |
| `QueueProtocol.UnboundedAttempts` | pctasks/task/pctasks/task/streaming.py:162-169 | Where failures never delete, as without a reported count, there is for every n a run in which a message fails n times and is still in the queue |
| `QueueProtocol.AttemptsStep` | pctasks/task/pctasks/task/streaming.py:144-187 | In timely runs each delivery takes one of the attempts left, and no step adds one |
| `QueueProtocol.Drain` | pctasks/task/pctasks/task/streaming.py:144-187 | When deliveries finish in time and nothing new arrives, N fresh messages are delivered at most 3N times, and the queue is empty once nothing more can be delivered |
| `StreamingRun.Worker.Run` | pctasks/task/pctasks/task/streaming.py:134-205 | On every exit the clean-up ran once; the handled deliveries are exactly the reachable ones up to the limit; the deletes are those of passed messages with a next visible time and of failures with a count of 3 or more |
| `StreamingRun.Worker.Loop` | pctasks/task/pctasks/task/streaming.py:144-200 | The nested loops with their break handle the same deliveries as the flat list of what the polls hand out |
| `StreamingRun.Worker.HandlePoll` | pctasks/task/pctasks/task/streaming.py:146-193 | One poll is handled up to the first delivery from which an exception escapes, or to the limit |
| `StreamingRun.Worker.Handle` | pctasks/task/pctasks/task/streaming.py:149-187 | A message is deleted exactly if the delivery issues a delete that is accepted, and it is counted unless an exception escapes, even one of the delete |
| `StreamingRun.ReachableMeans` | pctasks/task/pctasks/task/streaming.py:144-200 | The reachable deliveries are a front of the offered ones, all complete, and end only at an escaping exception, a failing poll or the end |
| `StreamingRun.LimitIsExact` | pctasks/task/pctasks/task/streaming.py:135-193 | With a positive limit L a normal return means exactly L deliveries; a negative one returns at once; None and 0 never return normally |
| `StreamingRun.TurnIsPossible` | pctasks/task/pctasks/task/streaming.py:149-187 | Each handled delivery is a sequence of steps of the queue machine, and exactly an accepted delete takes the message out |
| `StreamingRun.RunIsQueueRun` | pctasks/task/pctasks/task/streaming.py:144-187 | The loop of one worker is a run of the queue machine, and its recorded deletes are exactly what left the queue |
| `StreamingRun.InterleavedLoop` | pctasks/task/pctasks/task/streaming.py:144-187 | However the steps of the loop are mixed with those of other workers, also with a delivery still open, the messages its steps delete are the recorded deletes, in order |
| `StreamingRun.RemovedForAReason` | pctasks/task/pctasks/task/streaming.py:162-185 | In every run of the shared queue with the steps of other workers in between, the worker removes exactly the messages of its recorded deletes, each for one of the two permitted reasons and for good |
| `StreamingRun.UncountedStay` | pctasks/task/pctasks/task/streaming.py:162-165 | Failing deliveries without a dequeue count can go on for any number of turns and delete nothing |
| `StreamingAttempts.AttemptsOfLoops` | pctasks/task/pctasks/task/streaming.py:144-187 | In every run in which all workers run the loop, report the count the queue gave and have no delete refused, no failure with a count of 3 or more leaves its message in the queue, and a message fails and stays at most twice |
| `StreamingAttempts.NoLateOwn` | pctasks/task/pctasks/task/streaming.py:157-169 | Whatever the other workers do, a worker that runs the loop in this way has no such failure |
| `StreamingDeletes.LeavesExactly` | pctasks/task/pctasks/task/streaming.py:157-187 | In every interleaving of loops a sent message has left the queue if and only if one of its deliveries passed with a next visible time, or failed with a reported count of at least 3, and its delete was accepted |
| `StreamingDeletes.PassedForGood` | pctasks/task/pctasks/task/streaming.py:172-187 | A message that passed with a next visible time and an accepted delete is out of the queue, and is never received again however the run goes on |
| `StreamingDeletes.HandledUnless` | pctasks/task/pctasks/task/streaming.py:144-200 | A run handles everything that is offered up to the limit unless something disturbs it, and nothing from the first delivery on that is interrupted or whose delete is refused, nor after a poll that fails |
| `StreamingDeletes.EmptiesQueue` | pctasks/task/pctasks/task/streaming.py:144-200 | A worker to which every message of the queue is handed out and for which all pass in this way records exactly their deletes, in order, and leaves the queue empty |
| `ItemRecords.KeyDetermines` | pctasks/core/pctasks/core/models/item.py:27-29 | A record id is ambiguous, but together with the partition key it determines STAC id, version text and type |
| `ItemRecords.ValidItemMeans` | pctasks/core/pctasks/core/models/item.py:20-37 | The validator accepts an item exactly when neither its collection nor its id has a slash, and then splits it into these two |
| `ItemRecords.Containers.FinalizeMessage` | pctasks/dataset/pctasks/dataset/streaming.py:224-273 | An invalid item raises before any put; otherwise the item records, then the update records of `ItemContents` are put in order, up to a raising put, which may have stored its record; an error puts one error record |
| `ItemRecords.Containers.BuildRecords` | pctasks/dataset/pctasks/dataset/streaming.py:246-263 | Builds an item and an update record for each item, in order, or raises when some STAC id is invalid |
| `ItemRecords.Containers.PutRecords` | pctasks/dataset/pctasks/dataset/streaming.py:265-268 | Whatever put raises, before or after storing, an initial part of the records is stored, all item records before any update record |
| `ItemStream.RunsAreQueueRuns` | pctasks/task/pctasks/task/streaming.py:146-187 | Every run of the create-items task is a run of the queue protocol, with its invariants |
| `ItemStream.FragmentRuns` | pctasks/dataset/pctasks/dataset/streaming.py:185-273 | The steps of one delivery are possible in order, store its first puts, and exactly a deleting end takes the message out |
| `ItemStream.OpenDelivery` | pctasks/task/pctasks/task/streaming.py:146-187 | Every delivery in progress began with a receipt, and all its worker did since are its puts |
| `ItemStream.NoMessageLost` | pctasks/task/pctasks/task/streaming.py:144-187 | A message leaves the queue only after a sequence of steps of one worker that receives it, does every put of it and passes, or receives it for at least the third time, does some puts and fails |
| `ItemDelivery.Deliver` | pctasks/dataset/pctasks/dataset/streaming.py:185-273 | Processing, finalizing and the delete decision, as code, are such a sequence of steps: receipt, the puts stored, and the end, with the records, the deletes and the queue that the steps have |
| `ItemStream.SingleEffect` | pctasks/dataset/pctasks/dataset/streaming.py:239-273 | However many deliveries stopped between two puts or ran side by side, the record ids of passed messages are those of one clean delivery each, and no others appear |
| `ItemStream.ItemsArePaired` | pctasks/dataset/pctasks/dataset/streaming.py:250-268 | For each item of a passed message there are a StacItem and an ItemUpdated record with its STAC id, and they show the same version if and only if the version of the item is not null |
| `ItemDelivery.NullVersionUnpaired` | pctasks/dataset/pctasks/dataset/streaming.py:250-268 | One message delivered without failure whose item has a version of null leaves two records with different versions |
| `ItemStream.SoleWriterContent` | pctasks/dataset/pctasks/dataset/streaming.py:239-273 | A record that only one put writes is, but for the run id, the one a clean delivery leaves |
| `ItemStream.StoredRecord` | pctasks/core/pctasks/core/models/item.py:27-37 | What is stored under the key of a record has its type, STAC id and version text |
| `ItemContents.RecordOrigin` | pctasks/core/pctasks/core/models/item.py:27-91 | In every run each stored record was put for an item that the create function yields for a message: a StacItem record has its STAC id, version and body, an ItemUpdated record its STAC id and version, with null as empty, and the run id of a worker that received the message; the record ids are written out |
| `ItemContents.ItemStored` | pctasks/dataset/pctasks/dataset/streaming.py:239-268 | Both records of an item of a passed message are stored, and the item record has the body of that item unless another received item has its collection, id and version |
| `ItemContents.FailedCreation` | pctasks/dataset/pctasks/dataset/streaming.py:197-222 | A passed message for which the create function raises left an error record, and error records come from such messages only; one with unreadable content or that was asked to wait never passes |
| `ItemContents.FailingPasses` | pctasks/dataset/pctasks/dataset/streaming.py:197-208 | A message for which the create function raises can be delivered so that it passes, with one put and no item record |
| `Grouping.Grouped` | pctasks/core/pctasks/core/utils/__init__.py:41-44 | Every group has between 1 and `size` elements, and all but the last have exactly `size` |
| `Grouping.GroupedFlatten` | pctasks/core/pctasks/core/utils/__init__.py:41-44 | The groups flatten to the input if and only if the size is positive or the input empty |
| `Grouping.GroupedCount` | pctasks/core/pctasks/core/utils/__init__.py:41-44 | There are ceil(length / size) groups |
| `NdjsonText.PrepareChunk` | pctasks/ingest_task/pctasks/ingest_task/items.py:91-103 | The prepared file is the text with one more newline, and the line count is the number of lines of the text |
| `NdjsonText.ConcatenateFiles` | pctasks/ingest_task/pctasks/ingest_task/items.py:55-62 | The written file is the stripped texts as read back, separated by single newlines |
| `NdjsonText.ItemLinesKept` | pctasks/ingest_task/pctasks/ingest_task/items.py:56-96 | Preparing, stripping and joining keep exactly the non-blank lines of all chunks, in order |
| `NdjsonText.LineCountBound` | pctasks/ingest_task/pctasks/ingest_task/items.py:92-96 | The recorded count bounds the non-blank lines of the chunk if and only if it has no more lone carriage returns than blank lines, and bounds all lines if and only if there is no lone carriage return |
| `NdjsonText.LineCountExceeded` | pctasks/ingest_task/pctasks/ingest_task/items.py:92-96 | A chunk with a recorded count of 1 of which two items are read back |
| `NdjsonText.LineCountWithoutReturns` | pctasks/ingest_task/pctasks/ingest_task/items.py:92-96 | Without carriage returns the recorded count is the number of lines read back and bounds the items |
| `NdjsonText.SplitTranslated` | pctasks/ingest_task/pctasks/ingest_task/items.py:58-61 | Reading in text mode adds exactly one line for each lone carriage return |
| `NdjsonIngest.IngestNdjsons` | pctasks/ingest_task/pctasks/ingest_task/items.py:106-242 | In every order in which preparations finish and are read, each prepared chunk is in one place, flushed, queued or pending; all flushes but the last are full; the flushes lead one after the other to the table, each reading files that a chunk with that path wrote, a successful one ingesting all lines it read and a failed one a part of those before the first bad line; it raises IngestFailedException if and only if a non-empty uri failed; a deletion fails only if two chunks share a file; when none do, a failed preparation is raised unless such a uri failed; a normal end means that no preparation failed and nothing stays behind |
| `NdjsonIngest.ConsumeFutures` | pctasks/ingest_task/pctasks/ingest_task/items.py:196-213 | The loop over completed preparations keeps the balance of chunks and flushes only full groups; it ends early only if a preparation fails or a file to be deleted is gone, and otherwise nothing is left to read |
| `NdjsonIngest.QueueChunk` | pctasks/ingest_task/pctasks/ingest_task/items.py:200-213 | A chunk is appended once and flushed exactly when the queued lines reach the target; its file is missing at the deletion only if two chunks share one |
| `NdjsonIngest.Flush` | pctasks/ingest_task/pctasks/ingest_task/items.py:158-194 | The flush reads one file for each chunk, all of them if no two chunks share a file, each with the text of a chunk prepared there; either every line was read and ingested in blocks and the uris are recorded as successful, or at most a part was and they are recorded as failed, and that only if a file was missing, a line raises, the target is negative or the database refused the load |
| `NdjsonIngest.Unlink` | pctasks/ingest_task/pctasks/ingest_task/items.py:208-213 | Deleting the files of a flushed group takes no file from a chunk still to be read, and finds every file, if no two chunks share one |
| `NdjsonPool.Next` | pctasks/ingest_task/pctasks/ingest_task/items.py:136-198 | Whichever processes finish meanwhile: the next future is one of the unread ones, its chunk is handed over with its file, and no other chunk is lost or added |
| `NdjsonPool.Complete` | pctasks/ingest_task/pctasks/ingest_task/items.py:78-103 | A preparation that succeeds writes its text and a newline over whatever was in its file, and one that fails leaves the files alone |
| `NdjsonPool.UnlinkedKeeps` | pctasks/ingest_task/pctasks/ingest_task/items.py:208-213 | A held chunk still has its file when it is deleted, if no two chunks share one |
| `NdjsonLoad.IngestItemPaths` | pctasks/ingest_task/pctasks/ingest_task/items.py:37-75 | Success means that every line of the concatenated file parses and, with a positive group size, that the table is their block-wise ingest; a failure leaves whole blocks and a part of the next of the items before the first bad line, and comes from a bad line, a negative size, which changes nothing, or a load that failed |
| `NdjsonLoad.ReadableChunks` | pctasks/ingest_task/pctasks/ingest_task/items.py:57-65 | The chunks of a flush can be read to the end if and only if every item line parses, no chunk but the last is empty once stripped, and none that is not empty has a blank line inside |
| `NdjsonLoad.EmptyChunkUnreadable` | pctasks/ingest_task/pctasks/ingest_task/items.py:57-65 | Three chunks, the second of them empty, that no flush can load |
| `NdjsonLoad.PartRow` | pctasks/ingest_task/pctasks/ingest_task/items.py:37-75 | After an ingest that failed anywhere, or did not, each row is as before or one of the items |
| `NdjsonTheorems.EveryItemStored` | pctasks/ingest_task/pctasks/ingest_task/items.py:155-238 | After a call in which every preparation was read and every flush succeeded, and in which chunks that share a file have one text, all items of all uris are in the table if and only if no id has two different items; every row that changed is one of the items |
| `NdjsonTheorems.CompletionOrderIrrelevant` | pctasks/ingest_task/pctasks/ingest_task/items.py:196-216 | Two such calls over the same chunks, with one item for each id, leave the same table, whatever the completion order and the group sizes |
| `NdjsonTheorems.SuccessUrisStored` | pctasks/ingest_task/pctasks/ingest_task/items.py:155-238 | Whatever else failed in the call: the items of every uri in the success list are in the table at its end, and every row that changed is an item of the call |
| `NdjsonTheorems.DistinctPaths` | pctasks/core/pctasks/core/storage/__init__.py:132-153 | When the uris have pairwise different paths, no two chunks of the call share a file, in the sense that the theorems above need |
| `NdjsonTheorems.ChunksMean` | pctasks/ingest_task/pctasks/ingest_task/items.py:78-103 | The chunks of a call are those of the uris whose preparation succeeds, each with the path of its uri and the number of lines of its text |
| `NdjsonSharing.EveryOrderStores` | pctasks/ingest_task/pctasks/ingest_task/items.py:84-103 | For chunks that can be read, with different ids and not stored before: a flush stores every item in every order of preparation if and only if no two different chunks share a file |
| `NdjsonSharing.FilesHoldLast` | pctasks/ingest_task/pctasks/ingest_task/items.py:91-96 | After preparations in some order each file holds the text of the last of them that was prepared there |
| `NdjsonSharing.EveryFlushSucceeds` | pctasks/ingest_task/pctasks/ingest_task/items.py:155-238 | If no two chunks share a file, every chunk can be read and no load fails, then every flush of the call succeeds and no uri is reported as failed |
| `NdjsonSharing.SameNameLoses` | pctasks/core/pctasks/core/storage/__init__.py:148-150 | A flush of /d/a/x.ndjson and /d/b/x.ndjson succeeds, stores the item of the one prepared last, and leaves the row of the other as it was, for both orders |
| `NdjsonIngest.UrisConserved` | pctasks/ingest_task/pctasks/ingest_task/items.py:155-238 | If every preparation succeeds and the call gets to its end, the two lists together are a permutation of the uris, and for non-empty uris the call fails exactly when the failure list is not empty |
| `NdjsonIngest.FlushCount` | pctasks/ingest_task/pctasks/ingest_task/items.py:196-216 | There are at most lines / target + 1 flushes |
| `NdjsonIngest.FlushSize` | pctasks/ingest_task/pctasks/ingest_task/items.py:200-216 | No flush holds more than target - 1 lines plus its last chunk |
| `PgStac.UniqueItems` | pctasks/ingest_task/pctasks/ingest_task/pgstac.py:41-49 | The generator with its `seen` set is the first-wins deduplication |
| `PgStac.UniqueMeans` | pctasks/ingest_task/pctasks/ingest_task/pgstac.py:41-49 | Exactly the items that are the first with their id are kept |
| `PgStac.UniqueDistinct` | pctasks/ingest_task/pctasks/ingest_task/pgstac.py:41-49 | No two kept items share an id |
| `PgStac.UniqueInOrder` | pctasks/ingest_task/pctasks/ingest_task/pgstac.py:45-49 | What is kept of a front of the input comes first, so input order is kept |
| `PgStac.PartThenAll` | pctasks/ingest_task/pctasks/ingest_task/pgstac.py:25-39 | After any partial upsert a complete one leaves the table of one clean load |
| `PgStac.PartLoadedTwice` | pctasks/ingest_task/pctasks/ingest_task/pgstac.py:25-39 | Two partial loads of the same items leave a partial load |
| `PgStac.PgStac.WithConnectionRetry` | pctasks/ingest_task/pctasks/ingest_task/pgstac.py:25-39 | A group is tried a second time if and only if the first attempt was not a retry and ended in a connection error, each time with the same items; the outcome is that of the last attempt; success leaves the table of one clean load of the deduplicated group, failure a partial one |
| `PgStac.PgStac.IngestItems` | pctasks/ingest_task/pctasks/ingest_task/pgstac.py:51-69 | The loader sees the groups in order, each once or twice; success is the successive loads, failure leaves complete groups and a part of the next |
| `PgStac.PgStac.IngestIterator` | pctasks/ingest_task/pctasks/ingest_task/pgstac.py:57-69 | Without a group size the group is the one-shot input itself, so a retry, which follows exactly a connection error of the first attempt, loads only what that had not taken; on every exit the table is that of the two parts stored |
| `PgStac.PgStac.IngestHandle` | pctasks/ingest_task/pctasks/ingest_task/pgstac.py:51-69 | On a file handle a group size makes success mean the clean loads of the groups, and failure complete groups and a part of the next; without it the first holds unless the load was retried |
| `PgStacTheorems.IngestedIsGroups` | pctasks/ingest_task/pctasks/ingest_task/pgstac.py:57-69 | Grouping and loading is block-wise deduplication and upsert |
| `PgStacTheorems.FinalTable` | pctasks/ingest_task/pctasks/ingest_task/pgstac.py:41-69 | The final row of each id is its first occurrence within the last size-n block that has it; all other rows are untouched |
| `PgStacTheorems.FinalRow` | pctasks/ingest_task/pctasks/ingest_task/pgstac.py:41-69 | An item that is the first of its id in the last block with that id is in the final table |
| `PgStacTheorems.BlockIsQuotient` | pctasks/core/pctasks/core/utils/__init__.py:41-44 | Position i lies in block i / n |
| `PgStacTheorems.GroupSizeIrrelevant` | pctasks/ingest_task/pctasks/ingest_task/pgstac.py:51-69 | With distinct ids the final table does not depend on the group size |
| `PgStacTheorems.IngestTwice` | pctasks/ingest_task/pctasks/ingest_task/pgstac.py:51-69 | Ingesting the same input again changes nothing |
| `PgStacCollections.DroppedRow` | pctasks/ingest_task/pctasks/ingest_task/pgstac.py:41-49 | Of the items of one id in a block only the first is loaded, and the row of another of them is loaded if and only if the first has its collection |
| `PgStacCollections.FinalKeyRow` | pctasks/ingest_task/pctasks/ingest_task/pgstac.py:51-98 | The row of a collection and id after any number of blocks is that of the last block whose first item with the id has the collection, and what it was before if there is none |
| `PgStacCollections.GroupsStoreAll` | pctasks/ingest_task/pctasks/ingest_task/pgstac.py:51-98 | New items of different collections and ids are all stored if and only if no group has two of the same id |
| `PgStacCollections.TableShowsRows` | pctasks/ingest_task/pctasks/ingest_task/pgstac.py:51-98 | When each id has one collection, the table by ids used elsewhere shows exactly the rows |
| `PgStacStream.StreamRetryLoses` | pctasks/ingest_task/pctasks/ingest_task/pgstac.py:57-69 | An item read from the handle and not stored before the break, whose id does not come again, is in neither attempt |
| `PgStacStream.StreamRetryComplete` | pctasks/ingest_task/pctasks/ingest_task/pgstac.py:57-69 | For every table and input, a retry from a handle equals one clean load if and only if each id comes up in the retry with its first item, or does not come up and had its first item stored or in the table |
| `PgStacStream.StreamRetrySafe` | pctasks/ingest_task/pctasks/ingest_task/pgstac.py:57-69 | A retry is harmless wherever the connection breaks if and only if the table already holds every item |
| `PgStacStream.RetryOverwrites` | pctasks/ingest_task/pctasks/ingest_task/pgstac.py:41-69 | With everything read also stored, a retry that starts with an empty `seen` set lets a repeated id overwrite its first item |
| `TemplateText.TemplateStr` | pctasks/core/pctasks/core/utils/template.py:153-173 | The loop with its early return and its failures is the successive replacement of the placeholders found in the original string |
| `TemplateText.FindAllHoles` | pctasks/core/pctasks/core/utils/template.py:157-161 | The regular expression finds exactly the placeholders of a well-formed template |
| `TemplateText.ReplaceIsSubst` | pctasks/core/pctasks/core/utils/template.py:166 | Replacing the text of a placeholder replaces exactly the placeholders with that text |
| `TemplateSubst.TemplateStrMeans` | pctasks/core/pctasks/core/utils/template.py:153-173 | On a well-formed template the first placeholder that raises or has a value other than a string decides the result; otherwise all string values are replaced at once and nothing else |
| `TemplateSubst.TemplateStrOfStrings` | pctasks/core/pctasks/core/utils/template.py:153-173 | With string values only, it raises exactly when some placeholder raises |
| `TemplateSubst.TwoPhasesString` | pctasks/core/pctasks/core/utils/template.py:153-173 | The result is well-formed again, and a second phase does what one phase with the combined resolver does |
| `TemplatePositions.WovenTemplate` | pctasks/core/pctasks/core/utils/template.py:153-173 | In a string of texts and placeholders the result is the texts with the string values between them, where a placeholder without a value stands for itself |
| `TemplatePositions.DecidedTemplate` | pctasks/core/pctasks/core/utils/template.py:167-173 | The first placeholder that raises makes the template raise, and the first with a value other than a string or None replaces the whole string by it |
| `TemplatePositions.QuotedIsNone` | pctasks/core/pctasks/core/utils/template.py:11-161 | What stands in the braces is a placeholder if and only if it has no quotation mark |
| `TemplatePositions.LocalFileStays` | pctasks/core/pctasks/core/utils/template.py:260-266 | The documented example of a local file is left as it is by every templater |
| `TemplateDict.TemplateDictionary` | pctasks/core/pctasks/core/utils/template.py:191-214 | The nested loops compute the structural substitution and fail exactly when it fails |
| `TemplateDict.TemplateList` | pctasks/core/pctasks/core/utils/template.py:198-207 | In a list dictionaries and strings are templated, and lists inside it are left alone |
| `TemplatePositions.EveryPosition` | pctasks/core/pctasks/core/utils/template.py:191-214 | On success, at every position reached through dictionaries and through lists that are elements of no list: a string is what `template_str` gives, a dictionary has its keys in order, a list its length, a list in a list and any other value is unchanged |
| `TemplatePositions.FailsExactly` | pctasks/core/pctasks/core/utils/template.py:191-214 | Templating fails if and only if `template_str` raises for the string at some such position |
| `TemplatePositions.NothingLeft` | pctasks/core/pctasks/core/utils/template.py:176-214 | When every placeholder is answered with a string, templating succeeds and no such string has a placeholder left |
| `TemplateDict.MultiGetValue` | pctasks/core/pctasks/core/utils/template.py:243-248 | The first templater with a value wins |
| `TemplateDict.FirstMatchMeans` | pctasks/core/pctasks/core/utils/template.py:243-248 | The value is that of the first templater that does not return None, or its exception, and None if there is no such templater |
| `TemplateDict.PhasesAreOnePass` | pctasks/core/pctasks/core/utils/template.py:176-248 | Templating a nested dictionary with any number of templaters in turn equals templating once with their first match, failures included |
| `TemplateDict.PhaseOrderIrrelevant` | pctasks/core/pctasks/core/utils/template.py:176-248 | When no placeholder is answered twice, the order of the phases does not matter |
| `FindValue.StrictNeverMissing` | pctasks/core/pctasks/core/utils/template.py:102-110 | A strict lookup never yields None, so the branches that look for None in lists are dead |
| `FindValue.MissingMeans` | pctasks/core/pctasks/core/utils/template.py:60-68 | A lookup yields None exactly when the first key is missing, and is a strict lookup otherwise |
| `FindValue.Compositional` | pctasks/core/pctasks/core/utils/template.py:51-123 | When p leads to a dictionary, p + q is the strict lookup of q in it; when p leads to a non-empty list of dictionaries, in each of them |
| `FindValue.EachMeans` | pctasks/core/pctasks/core/utils/template.py:102-112 | The lookup in a list succeeds if and only if every element's does, position by position |
| `FindValue.IndexSelects` | pctasks/core/pctasks/core/utils/template.py:55-84 | An index of at least 1 within bounds selects its element, whatever follows; index 0 is as no index, so at the end of a path it returns the whole list |
| `FindValue.IndexFails` | pctasks/core/pctasks/core/utils/template.py:70-84 | An index of at least 1 fails on anything but a list that is long enough |
| `FindPaths.FindsNested` | pctasks/core/pctasks/core/utils/template.py:51-123 | A value under the keys of nested dictionaries is what their path finds, strict or not, if it is a dictionary, list, string, number or truth value, and raises otherwise |
| `FindPaths.FirstKeyMissing` | pctasks/core/pctasks/core/utils/template.py:60-68 | With the first key absent or null the result is None if the lookup is not strict and an error if it is |
| `FindPaths.LaterKeyMissing` | pctasks/core/pctasks/core/utils/template.py:86-113 | A later key that is absent, or that follows a scalar, an empty list or a list with something else than dictionaries, raises in any case |
| `FindPaths.FindsInList` | pctasks/core/pctasks/core/utils/template.py:90-112 | A path that goes on below a list of dictionaries yields the list of the values in them, in order |
| `FindPaths.FindsAtIndex` | pctasks/core/pctasks/core/utils/template.py:69-112 | An index of at least 1 yields the value in the dictionary it names, an index of 0 those of all |
| `JobOrder.SortJobs` | pctasks/run/pctasks/run/dag.py:8-17 | Fails for a missing id; otherwise succeeds exactly when the dependency graph is acyclic, with a permutation in which every dependency in the list precedes its dependents and jobs of one id keep their order |
| `JobOrder.AddDependencies` | pctasks/run/pctasks/run/dag.py:13-14 | Adds exactly the edges from the listed dependencies, which may name no job |
| `JobOrder.DiGraph.TopologicalSort` | pctasks/run/pctasks/run/dag.py:16 | Succeeds if and only if the graph has no cycle, with every node once and every edge pointing forward |
| `JobOrder.DiGraph.RemoveGeneration` | pctasks/run/pctasks/run/dag.py:16 | Taking out one generation keeps the invariant of Kahn's algorithm |
| `JobOrder.DiGraph.AddEdge` | pctasks/run/pctasks/run/dag.py:14 | Adds the edge once, with its nodes |
| `JobOrder.OrderExcludesCycles` | pctasks/run/pctasks/run/dag.py:16 | A complete order that respects the edges excludes cycles |
| `JobOrder.BlockedMeansCycle` | pctasks/run/pctasks/run/dag.py:16 | If every node of a non-empty set has a predecessor in it, there is a cycle |
| `JobOrder.CyclicMeans` | pctasks/run/pctasks/run/dag.py:8-16 | The graph has a cycle if and only if jobs need each other in a circle |
| `JobOrder.StableSortStable` | pctasks/run/pctasks/run/dag.py:17 | The sort keeps the order of elements with equal keys |
| `BulkPut.GroupForBulkPut` | pctasks/core/pctasks/core/cosmos/container.py:166-174 | The runs are the maximal runs of equal keys of the prepared input in order, and the groups are theirs |
| `BulkPut.PreparePutItem` | pctasks/core/pctasks/core/cosmos/container.py:132-146 | The first put sets the creation time only, later ones the update time only, and the document shows them |
| `BulkPut.GroupsKeepAll` | pctasks/core/pctasks/core/cosmos/container.py:166-174 | With a positive maximum the groups flatten, in order, to the prepared input; with 0 there are none |
| `BulkPut.GroupsWellFormed` | pctasks/core/pctasks/core/cosmos/container.py:172-174 | Each group has between 1 and the maximum number of documents, all with its key |
| `BulkPut.RunGroupCount` | pctasks/core/pctasks/core/cosmos/container.py:172-174 | A maximal run of length r yields exactly ceil(r / max) groups |
| `BulkPut.GroupsOfRunInPlace` | pctasks/core/pctasks/core/cosmos/container.py:169-174 | The groups of a run follow those of the runs before it |

## Left out

- The Azure, Cosmos DB, pgstac and networkx libraries: a queue, keyed stores, a flat blob namespace, a table with upserts and an explicit topological sort stand for them.
- Regular expressions other than the placeholder expression, JSON, YAML and pydantic validation: predicates, or well-formed inputs; parsing a line is a function that yields its id or fails.
- Clocks, sleeping, time stamps and throughput: a visibility timeout is a step that may happen at any time, and a time stamp is some value.
- `since_date` filtering in `list_files`, `split_path`, `template_model`, and the bulk-put calls to the database: not part of this model.
- The `insert` mode of the loader: the table is only upserted.
- StorageWalk.Walk: the container does not change during a walk.
- StorageWalk.Walk: a negative file limit and a folder listing that raises are not modelled, and None and 0 are one value for each integer option, as the code treats them alike.
- StorageWalk.Walk: with a depth option, walks over folders whose computed depth is not their number of segments (empty segments at the ends, or "." and ".." below a storage prefix) are not characterised; without one every folder is allowed.
- WalkStrings.DepthsCountExactly: an absolute `name_starts_with` below a storage prefix, which leaves the prefix, is not covered where depths are concerned.
- NdjsonIngest.IngestNdjsons: a file is what its path says, so paths that differ as strings are different files; a file is read and written at once, a preparation that fails leaves no file, and deletions fail only for a missing file; failures of shutting down the process pool are not modelled, nor is the table with a target of 0 or less.
- NdjsonTheorems.SuccessUrisStored: an empty line is taken not to parse, and chunks that share a file to have the same text, as they do when no two share one.
- NdjsonTheorems.EveryItemStored: with two items for one id the table depends on the order of the flushes, which `PgStacTheorems.FinalTable` decides within each.
- PgStac.PgStac.IngestItems: its table has one row for each id; `PgStacCollections` has one for each collection and id, and says when the two agree.
- BlobUris.ParseName: the test that `urlsplit` applies to a netloc (brackets, characters that normalise to separators) is a parameter that accepts the empty string.
- StreamingRun.Worker.Run: failures before the loop is entered and failures of the clean-up itself are not modelled; a delete that is refused raises.
- QueueProtocol.Drain: assumes, as its definition of timely runs says, that deliveries end within the visibility timeout, deletes have effect and nobody crashes.
- ItemRecords.KeyDetermines: a version of null and a version "None" have the same text; versions that are neither strings nor null are not modelled.
- ItemStream.SingleEffect: counts an item record and an update record as one store, since they share a container; time stamps inside the records are not part of them; when several messages write one key, the id but not the content is determined.
- TemplateText.TemplateStr: a resolver takes the text between the braces; trimming and splitting it is left to the resolver.
- TemplateSubst.TwoPhasesString: a "$" outside of placeholders must not stand before "{" or before a placeholder, and resolved values are strings without "$".
- JobOrder.SortJobs: that the library repeats no node in its generations follows from its source, which is not part of this model; ties are broken by insertion order.
