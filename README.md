# ftp-uploader: a verified model of the sequential upload orchestrator

This project models, in Dafny, the core of `ftp-uploader`: a library that
queues local files and directories, uploads them to an FTP server one at a
time, applies a collision policy when the remote object already exists, and
reports progress with a smoothed speed estimate.

The model covers four source files:

- **The work item** (`src/FileItem.ts`, with the enums and the descriptor of
  `src/types.ts`). The mutable `FileItem` record becomes the class
  `FileItems.FileItem`. Its field-by-field copy, the `Item` datatype, is the
  snapshot that readers receive.
- **The work queue** (`src/Queue.ts`). This is the class `WorkQueue.Queue`
  over a `seq<FileItem>` of stored records. A ghost `Contents` keeps the
  snapshots of those records. Every operation is proved against a pure
  function in `QueueSpec`: `WithStatus`, `WithTransferred`, `RemoveFirst`,
  `Lookup`, `NextReady`, `Created`, `CountStatus` and `IndexOfId`. A ghost
  log `Emitted` records the queue's notifications.
- **The orchestrator** (`src/Uploader.ts`). This is the class
  `Orchestrator.Uploader`.
  - Each promise continuation or timer that can be outstanding is recorded
    in the field `pending`, with the item its closure captured.
  - Each settlement is an event method:
    - `DirectoryCreated` and `ParentCreated`;
    - `MkdirRejected`;
    - `ListingResolved` and `ListingRejected`;
    - `Tick` (the 500 ms progress poll);
    - `TransferResolved` and `TransferRejected`.
  - Three inputs become parameters: whether a local path exists (`existing`),
    the clock (`now`) and the stream's byte count (`bytesRead`).
  - The synchronous scheduling chain is specified by the pure function
    `Scheduling.Drain`: startUpload → uploadItem → (missing path) error →
    errorUploadItem → startUpload. The methods that run it (`StartUpload`,
    `UploadItem`, `Proceed`, `Fail`, `ErrorUploadItem`) are mutually
    recursive and are proved equal to `Drain`.
  - `SpeedMeter.Sample` specifies the speed estimator of `step`.
- **The client's decision logic** (`src/FtpClient.ts`):
  - the collision policy of `upload`, as the list of client commands it
    issues (`FtpClient.UploadPlanAsWritten`). `FtpClient.UploadPlan` is the
    corrected plan of the finding below: it differs only in where a resumed
    STOR starts. `FtpClient.Execute` runs a command list against a remote
    file, using the stream-mode restart of RFC 3659 (section 5, REST);
  - the listing post-processing of `readdir` (`FtpClient.Readdir`);
  - the name search of `stat` (`FtpClient.Stat`).

The class invariant `Uploader.Valid()` holds between events. It says one of
two things:

- **Idle:** nothing is Ready or Uploading; the orchestrator is not uploading,
  has no current id and no armed timer, and the speed estimator is at its
  initial values. `isFinished` is free here: it is false before the first
  batch and true after every finished one.
- **Waiting on one continuation:** the current id is that continuation's
  item, that item is the single Uploading item, and the progress timer is
  armed exactly while a transfer is in flight.

Every event method preserves `Valid()`.

## Model

| member | source | states |
|---|---|---|
| FileItems.FromDescriptor | src/FileItem.ts:4-16 | A new item is Ready, has nothing transferred and no error. Its id is the supplied one. Its other five fields come from the descriptor and override the defaults. |
| FileItems.FileItem.constructor | src/FileItem.ts:14-16 | The new record's copy is exactly `FromDescriptor(id, descriptor)`. |
| FileItems.FileItem.SetTransferred | src/FileItem.ts:18-20 | `transferred` becomes exactly `n`; every other field, the id included, is unchanged. |
| WorkQueue.Queue.constructor | src/Queue.ts:5-8 | The queue starts empty, with nothing emitted. |
| WorkQueue.Queue.Size | src/Queue.ts:10-12 | The size is the number of stored items. |
| WorkQueue.Queue.GetStatusCount | src/Queue.ts:14-32 | `finished` and `error` are the numbers of Complete and Error items, and together they never exceed the size. |
| WorkQueue.Queue.AddItem | src/Queue.ts:39-45 | Appends exactly one Ready item built from the descriptor at the end, returns the new length and emits `itemAdded` with the descriptor. |
| WorkQueue.Queue.RemoveItemById | src/Queue.ts:54-64 | Cuts out the first item with the id, keeping the order of the rest, and returns it. With no match it removes nothing and returns none. `itemRemoved` is emitted in both cases. |
| WorkQueue.Queue.GetItemById | src/Queue.ts:73-80 | Returns a copy of the first item with the id, or none, and changes nothing. |
| WorkQueue.Queue.GetItems | src/Queue.ts:88-90 | Returns copies of all items, in queue order, and changes nothing. |
| WorkQueue.Queue.BulkAddItems | src/Queue.ts:98-103 | The queue becomes the old items followed by one new Ready item per descriptor, in order. One `bulkItemsAdded` notification carries the new items. |
| WorkQueue.Queue.Clear | src/Queue.ts:110-114 | The queue becomes empty (size 0) and `queueCleared` is emitted. |
| WorkQueue.Queue.SetItemStatusById | src/Queue.ts:124-134 | The queue becomes `WithStatus` of the old one, and nothing is emitted. |
| WorkQueue.Queue.SetItemStatus | src/Queue.ts:144-147 | The same update as SetItemStatusById, applied to the given item's id. |
| WorkQueue.Queue.SetItemTransferred | src/Queue.ts:156-163 | The queue becomes `WithTransferred` of the old one. |
| WorkQueue.Queue.UpdateItemTransferred | src/Queue.ts:172-179 | The same update as SetItemTransferred. |
| WorkQueue.Queue.NextReadyItem | src/Queue.ts:187-194 | Returns a copy of the first Ready item in insertion order, or none, and changes nothing. |
| WorkQueue.Queue.GetItemWithPosition | src/Queue.ts:196-212 | Returns the position of the first item with the id and that stored record, or -1 and null. |
| QueueSpec.IndexOfId | src/Queue.ts:196-212 | The result is -1 when no item has the id. Otherwise it is a position holding the id, and no earlier item has it. |
| QueueSpec.FirstReady | src/Queue.ts:187-194 | The result is -1 when nothing is Ready. Otherwise it is a Ready position, and nothing before it is Ready. |
| QueueSpec.NextReady | src/Queue.ts:187-194 | The result is some item exactly when a Ready item exists, and that item is the first Ready item of the queue. |
| QueueSpec.Lookup | src/Queue.ts:73-80 | The result is some item exactly when an item has the id, and that item is the first item with the id. |
| QueueSpec.ErrorField | src/Queue.ts:132 | An error is recorded exactly when the message is present and non-empty (`error \|\| null`), and it is that message. |
| QueueSpec.WithStatus | src/Queue.ts:124-134 | Only the first item with the id gets the status and error. Its transferred count, id and descriptor fields stay. An unknown id changes nothing, every other item is unchanged, and unique ids stay unique. |
| QueueSpec.WithTransferred | src/Queue.ts:156-163 | Every item with the id, not just the first, gets the byte count; no other field or item changes. |
| QueueSpec.Created | src/Queue.ts:98-100 | The k-th new item is the one built from the k-th descriptor with the k-th id. |
| QueueSpec.RemoveFirst | src/Queue.ts:54-64 | With no match the queue is unchanged and nothing is returned. Otherwise the first match is returned and the rest keep their relative order (an explicit index map). |
| QueueSpec.RemoveUnique | src/Queue.ts:54-64 | With unique ids, after removal no item with that id remains and the ids stay unique. |
| QueueSpec.CountStatus | src/Queue.ts:14-32 | The number of items with a given status, which the loop over the queue tallies, never exceeds the queue's length. |
| QueueSpec.CountPartition | src/types.ts:2-7 | Every item is in exactly one of the four statuses: the four counts add up to the size. |
| QueueSpec.FinishedAndErrorBounded | src/Queue.ts:14-32 | `finished + error <= size`. |
| QueueSpec.CountAppend | src/Queue.ts:98-103 | The status counts of a concatenation are the sums of the parts' counts. |
| QueueSpec.WithStatusCounts | src/Queue.ts:124-134 | A status update of a present id moves exactly that one item from its old count to the new one. |
| QueueSpec.TransferredKeepsShape | src/Queue.ts:156-163 | Recording bytes changes no identity or descriptor field and no status count. |
| QueueSpec.DuplicateIdRepicks | src/Queue.ts:124-134 | When an earlier record shares the first Ready item's id, marking that item by id changes the earlier record, so the same item is again the first Ready one. This is why the model requires unique ids. |
| QueueSpec.ShapeKeepsIndex | src/Queue.ts:196-212 | Updates that keep every item's identity keep every id search's answer. |
| Scheduling.NotFoundMessage | src/Uploader.ts:137 | The not-found message starts with the local path. |
| Scheduling.Failed | src/Uploader.ts:136-137 | A missing local path puts the item in Error, with the not-found message as its error. Its id, descriptor fields and transferred count stay. |
| Scheduling.Drain | src/Uploader.ts:129-139 | A synchronous pass of the loop changes no item's identity or descriptor fields, and ids stay unique. |
| Scheduling.DrainStartsWithNextReady | src/Uploader.ts:74-82 | With no Ready item, the pass picks nothing and leaves the queue unchanged. Otherwise, if that item's path exists, it picks exactly the item `nextReadyItem` returns. |
| Scheduling.DrainKeepsSettled | src/Uploader.ts:129-139 | A pass never touches an item that was not Ready. |
| Scheduling.DrainPicks | src/Uploader.ts:129-155 | The item handed on was Ready and has an existing local path. Its stored record is now Uploading with its error cleared. |
| Scheduling.DrainPickCount | src/Uploader.ts:205-208 | A pass that hands an item on adds exactly one Uploading item. |
| Scheduling.DrainFinishes | src/Uploader.ts:74-82 | A pass that hands nothing on leaves no Ready item and no new Uploading item. |
| Scheduling.DrainFailsMissing | src/Uploader.ts:136-139 | Every item the pass changes, apart from the one handed on, had a missing local path. Each such item is now in Error with the not-found message. |
| Scheduling.DrainInOrder | src/Uploader.ts:74-82 | Items are taken in insertion order: while an earlier Ready item is still Ready after the pass, no later item has been touched. |
| Scheduling.DrainStopsAtPick | src/Uploader.ts:74-82 | The pass stops at the item it hands on: every item after it keeps its old record, so the later Ready items wait for the next pass. |
| SpeedMeter.Window | src/Uploader.ts:114 | `slice(-5)` keeps the last min(n, 5) entries, in order. |
| SpeedMeter.Round | src/Uploader.ts:117 | `Math.round` returns an integer within half a unit of its argument. |
| SpeedMeter.Speed | src/Uploader.ts:111-112 | The speed times the elapsed seconds is the byte delta. |
| SpeedMeter.Delta | src/Uploader.ts:98-110 | While the same file is measured, or before any path is set, the delta is the growth since the last sample. Once the path has changed it is the whole count. |
| SpeedMeter.Sum | src/Uploader.ts:116 | The `reduce` sum of non-negative speeds is non-negative. |
| SpeedMeter.Mean | src/Uploader.ts:117 | The mean of non-negative speeds is non-negative. |
| SpeedMeter.Sample | src/Uploader.ts:94-126 | The cursor always moves to the new sample. The first sample of a session publishes nothing and only adopts the path when none is set. Later samples use delta = transferred − lastTransferred on the same path, or delta = transferred on a new path (which becomes current). They push the speed into a window of five and publish its rounded mean. |
| SpeedMeter.SampleKeepsWellFormed | src/Uploader.ts:113-118 | Each sample keeps the window at five entries or fewer and the average equal to their rounded mean. |
| SpeedMeter.PushedIsLastFive | src/Uploader.ts:113-114 | However many speeds are pushed, the window holds exactly the last five of them, in order. |
| SpeedMeter.SampleExtendsPushed | src/Uploader.ts:111-114 | Each later sample pushes exactly its own speed, so the window is always `Pushed` of the speeds computed so far, and `PushedIsLastFive` applies to it. |
| SpeedMeter.MeanBetween | src/Uploader.ts:116-117 | The averaged value lies between the smallest and the largest speed of the window. |
| SpeedMeter.SteadyAverage | src/Uploader.ts:116-117 | A steady speed is averaged to itself: the window does not distort it. |
| Orchestrator.Uploader.constructor | src/Uploader.ts:14-42 | The orchestrator starts idle, not finished, with an empty queue, and satisfies the invariant. |
| Orchestrator.Uploader.GetTransferStatus | src/Uploader.ts:44-53 | Reports the flags and the average. `total` is the queue size, and `finishedCount`/`errorCount` are the Complete and Error counts. Their sum never exceeds `total`. |
| Orchestrator.Uploader.Upload | src/Uploader.ts:55-64 | An empty batch changes nothing and emits nothing. A non-empty batch is always enqueued, with one `bulkItemsAdded` notification. If an item is current, nothing else changes. Otherwise the loop starts with `isUploading`, not `isFinished`, and the state is what `Drain` of the enlarged queue leaves. |
| Orchestrator.Uploader.StartUpload | src/Uploader.ts:74-82 | The state afterwards is exactly the pass `Drain` of the queue. Either it waits on the picked item's first continuation, or the batch is finished with every transient field reset. |
| Orchestrator.Uploader.Step | src/Uploader.ts:84-127 | The item's stored records get the byte count, and the estimator's fields become `Sample` of their old values. No other field changes. |
| Orchestrator.Uploader.Measure | src/Uploader.ts:92-126 | The estimator's fields become `Sample` of their old values; the scheduling fields are unchanged. |
| Orchestrator.Uploader.PushSpeed | src/Uploader.ts:113-118 | The window becomes the last five of the old window plus the speed, and the average becomes its rounded mean. |
| Orchestrator.Uploader.UploadItem | src/Uploader.ts:129-155 | Starting from the next Ready item, the state afterwards is exactly what `Drain` of the queue leaves. |
| Orchestrator.Uploader.Proceed | src/Uploader.ts:136-154 | A missing local path fails the item and the loop continues. Otherwise the item's first continuation is started with the queue unchanged. |
| Orchestrator.Uploader.Dispatch | src/Uploader.ts:141-154 | A directory item waits on the creation of the parent directory; a file waits on the listing of it. |
| Orchestrator.Uploader.Fail | src/Uploader.ts:163-169 | The timer is cleared, the item is marked Error with the message, and the loop continues as `Drain` of that queue. |
| Orchestrator.Uploader.Complete | src/Uploader.ts:171-178 | A final sample at the declared size is taken and the timer is cleared. The item is marked Complete with its size transferred, and the loop continues as `Drain`. |
| Orchestrator.Uploader.BeginBatch | src/Uploader.ts:59-60 | A batch starts with `isUploading` set and `isFinished` cleared; no other field changes. |
| Orchestrator.Uploader.Conclude | src/Uploader.ts:173-177 | After the final sample, the timer is cleared and the item is marked Complete with its size. The loop continues as `Drain` of that queue, keeping the estimator. |
| Orchestrator.Uploader.Reset | src/Uploader.ts:226-239 | Every transient field is reset: not uploading, finished, no current id or path, no timer, cursor at zero, empty window, average 0. |
| Orchestrator.Uploader.ClearTimer | src/Uploader.ts:164-167 | Afterwards no progress timer is armed; nothing else changes. |
| Orchestrator.Uploader.StartTransfer | src/Uploader.ts:190-203 | The transfer is in flight and the progress timer is armed; the flags, current id and estimator are unchanged. |
| Orchestrator.Uploader.ReadyUploadItem | src/Uploader.ts:205-208 | The item becomes current and is marked Uploading with no error. |
| Orchestrator.Uploader.CompleteUploadItem | src/Uploader.ts:210-217 | The item is marked Complete with its declared size transferred, then the loop continues as `Drain`. |
| Orchestrator.Uploader.ErrorUploadItem | src/Uploader.ts:219-224 | The item is marked Error with the message, then the loop continues as `Drain`. |
| Orchestrator.Uploader.UploadQueueFinished | src/Uploader.ts:226-242 | The batch ends: not uploading, finished, no current id or path, cursor at zero, empty window, average 0, and the invariant holds. |
| Orchestrator.Uploader.DirectoryCreated | src/Uploader.ts:142-144 | A directory item whose parent was created completes, and the loop continues. |
| Orchestrator.Uploader.MkdirRejected | src/Uploader.ts:145-153 | A failed directory creation (of a directory item, or of a file's missing parent) fails the item with the client's message, and the loop continues. |
| Orchestrator.Uploader.ListingResolved | src/Uploader.ts:149-150 | The parent could be listed, so the transfer starts. |
| Orchestrator.Uploader.ListingRejected | src/Uploader.ts:157-161 | The parent could not be listed, so its creation is started instead. |
| Orchestrator.Uploader.ParentCreated | src/Uploader.ts:149-150 | The parent was created, so the transfer starts. |
| Orchestrator.Uploader.Tick | src/Uploader.ts:180-188 | A progress poll takes one sample of the stream's byte count, and the timer stays armed. |
| Orchestrator.Uploader.TransferResolved | src/Uploader.ts:196-198 | A finished transfer completes the item at its declared size after a final sample, and the loop continues. |
| Orchestrator.Uploader.TransferRejected | src/Uploader.ts:199-201 | A failed transfer clears the timer and fails the item with the message, and the loop continues. |
| Orchestrator.Completed | src/Uploader.ts:210-212 | Completion keeps the queue's length, and the item's first record becomes Complete with no error and its declared size transferred. |
| Orchestrator.EnqueueKeepsState | src/Uploader.ts:55-57 | Enqueuing items with fresh ids keeps ids unique and the Uploading count unchanged. |
| Orchestrator.ReadyMakesInFlight | src/Uploader.ts:205-208 | Marking the next Ready item Uploading makes it the single item in flight and leaves the unsettled count unchanged. |
| Orchestrator.ReadyContinues | src/Uploader.ts:134-139 | Once the next Ready item is marked, the pass is the marked queue with that item handed on if its path exists. Otherwise it is the pass of the queue with that item in Error. |
| Orchestrator.SettleLeavesNoneUploading | src/Uploader.ts:210-224 | Completing or failing the item in flight leaves no Uploading item and lowers the unsettled count, so the loop terminates. |
| Orchestrator.SingleUploading | src/Uploader.ts:205-224 | While an item is in flight, every Uploading record in the queue is that item's record: at most one item is Uploading. |
| Orchestrator.TransferredKeepsInFlight | src/Uploader.ts:90 | Recording progress keeps the item in flight as the single Uploading item. |
| Orchestrator.FailedStays | src/Uploader.ts:219-224 | A failed item keeps its Error status and message through the rest of the pass. |
| Orchestrator.CompletedStays | src/Uploader.ts:210-217 | A completed item stays Complete, with its declared size transferred, through the rest of the pass. |
| FtpClient.LastChar | src/FtpClient.ts:132 | `substr(-1)` is the last character, or empty for an empty string. |
| FtpClient.DirSlash | src/FtpClient.ts:131-132 | The directory is kept, or gets one `/` appended; either way the result ends in `/`. |
| FtpClient.ToEntry | src/FtpClient.ts:134-139 | An entry carries the listing element's size and name and the normalised directory, and it is a directory exactly when the type letter is `d`. |
| FtpClient.Listing | src/FtpClient.ts:128-141 | An undefined listing gives no entries. Otherwise an entry is in the result exactly when it is built from an element other than `.` and `..`. |
| FtpClient.DirSlashEndsInSlash | src/FtpClient.ts:131-132 | The normalised directory ends in `/` and starts with the directory. It adds at most one character, and it equals the directory exactly when that already ends in `/`. |
| FtpClient.DirSlashIdempotent | src/FtpClient.ts:131-132 | Normalising twice is normalising once. |
| FtpClient.Listed | src/FtpClient.ts:129-139 | The entries built from a listing are never more than its elements; none is `.` or `..`, and each carries the normalised directory. |
| FtpClient.Readdir | src/FtpClient.ts:128-141 | The loop's result is `Listing`: an undefined listing gives no entries, otherwise the entries are built from the listing in order. |
| FtpClient.ListedMembers | src/FtpClient.ts:129-139 | An entry is in the result exactly when it comes from a listing element other than `.` and `..`. It carries that element's size and name and the normalised directory, and it is a directory exactly when the type letter is `d`. |
| FtpClient.ListedAppend | src/FtpClient.ts:129-139 | The result for a concatenated listing is the two results concatenated, so the listing order is kept. |
| FtpClient.ListedShape | src/FtpClient.ts:130-132 | No entry is `.` or `..`, and every entry's path is the normalised directory, ending in `/`. |
| FtpClient.FirstNamed | src/FtpClient.ts:157-168 | The result is -1 exactly when no element has the name. Otherwise it is the first element with that name. |
| FtpClient.Stat | src/FtpClient.ts:149-171 | An undefined listing rejects. Otherwise the result is null exactly when no element has the base name. A match reports the POSIX base name, the path and the first match's size. |
| FtpClient.UploadPlanAsWritten | src/FtpClient.ts:77-105 | The commands `upload` issues as written: every STOR sends the stream opened at byte 0, even after a restart. Before any transfer command is issued, the promise rejects exactly when the Verify lookup fails. |
| FtpClient.UploadPlan | src/FtpClient.ts:93-97 | The corrected plan of the finding below: identical to the plan as written except when Verify resumes, where the one difference is that the STOR sends the local file from the remote size on. |
| FtpClient.PlanTable | src/FtpClient.ts:79-102 | For the plan as written, and for the corrected one: a put is issued exactly for Cover, for Verify with no remote object, and for Verify with a local file larger than the remote one. A restart is issued only in the last case, at the remote size. Skip issues nothing. Only Verify looks the remote object up. Before any transfer command, the only rejection is a failed lookup. |
| FtpClient.CoverOverwrites | src/FtpClient.ts:80-81 | Cover leaves the remote file equal to the local one, whatever existed. Stated of the plan as written. |
| FtpClient.SkipKeepsRemote | src/FtpClient.ts:82-83 | Skip leaves the remote file untouched and resolves. Stated of the plan as written. |
| FtpClient.VerifyAbsentUploads | src/FtpClient.ts:99-100 | Verify with no remote object uploads the whole file, with no restart. Stated of the plan as written. |
| FtpClient.VerifyKeepsLargerRemote | src/FtpClient.ts:86-98 | Verify with a remote object at least as large as the local file issues no transfer and resolves, so the item completes. Stated of the plan as written. |
| FtpClient.VerifyResumeCompletes | src/FtpClient.ts:92-97 | The corrected plan, not what the code does: a remote file that is a proper prefix of the local one is resumed at the remote size, and the remote file ends equal to the local one. |
| FtpClient.AsWrittenResumeDuplicatesPrefix | src/FtpClient.ts:93-97 | As written, the resumed STOR sends the stream from byte 0. The remote file becomes prefix + whole local file, which differs from the local file. |
| FtpClient.AsWrittenResumeExample | src/FtpClient.ts:93-97 | With one byte already uploaded of a two-byte file [1, 2], the remote file ends as [1, 1, 2]. |

## Left out

- Connection handling of the client is not modelled: `getConnection`, `disconnect`, the event forwarding and `mkdirRecursive`'s path normalisation (`src/FtpClient.ts:25-75`). They are socket I/O and calls into the FTP library. `connectionError` is recorded but never read.
- Filesystem calls become inputs.
  - `fs.existsSync` is the set `existing`.
  - The stream's `bytesRead` is a parameter of `Tick`.
  - `fs.lstatSync(...).size` is the `localSize` argument of the upload plan.
  - Opening the read stream is part of `StartTransfer`, with no content.
- Timers and the clock are events and parameters. `setTimeout`/`clearTimeout` become the `timerArmed` flag and the `Tick` event. `new Date()` becomes the `now` argument. The source reads the clock twice in one `step`; the model uses one reading.
- `Orchestrator.Uploader.Step`: requires the clock to have advanced since the previous sample. The source divides by a zero elapsed time and publishes JavaScript `Infinity` or `NaN`, which is not modelled. `Tick`, `Complete` and `TransferResolved` carry the same requirement.
- Speeds are real numbers, not IEEE doubles; `Math.round` is floor(x + 0.5).
- The notification hooks (`onBeforeUploadItem`, `onAfterUploadItem`, `onErrorUploadItem`, `onProgress`, `onFinished`, `onInit`) are empty in the source and are not modelled. The reads they would make (`getItemById`, `transferStatus`) are modelled separately.
- Path computations are library calls and are not modelled. `path.dirname`, `path.basename`, `path.win32.basename` and `path.win32.dirname` are not computed. The directory passed to `mkdirRecursive`/`readdir` is not tracked, and `Stat` receives both base names as arguments.
- `+file.size` in `readdir` is a string-to-number conversion; the listing's size is a natural number here.
- Command failures are not part of an upload plan. A failing STOR, REST or `fs.lstatSync` also rejects `upload`'s promise (src/FtpClient.ts:80-100). The plan models only the decision; such a failure reaches the orchestrator as `TransferRejected`.
- An exception thrown inside a `then` callback (for instance `list.length` on an undefined listing in `stat`) is modelled only as the rejected outcome `ListingFailed`.
- `Orchestrator.Uploader.Upload`: id generation (`uuid/v1`) is a supplied parameter, and the supplied ids must be pairwise distinct and new to the queue (`QueueSpec.DuplicateIdRepicks` shows what a duplicate does). With a duplicate id the source's loop can pick the same Ready item forever, because `setItemStatus` updates only the first record with that id. A duplicate can arise only from a caller whose descriptor carries its own `id` property, which `Object.assign` copies over the generated one; `IFileItem` (src/types.ts:9-15) declares no such field.
- `Object.assign(this, item)` copies every own property of the descriptor. The model's descriptor has exactly the five fields of `IFileItem`; extra properties such as an `id` are not modelled.
- `WorkQueue.Queue.RemoveItemById`: returns a copy of the removed record rather than the record object itself. Once removed, the object is no longer reachable from the queue, so nothing observable differs.
- `WorkQueue.Queue.BulkAddItems`: the `bulkItemsAdded` notification carries snapshots of the new records rather than the objects.

## Findings

| source | as written | input that shows it | evidently intended | confidence | as-written member | corrected member |
|---|---|---|---|---|---|---|
| src/FtpClient.ts:93-97 | Verify resumes with `restartAsync(stat.size)` and then `putAsync` of the stream that `startTransfer` opened with `fs.createReadStream(localPath)` (src/Uploader.ts:192). That stream has no start offset, so the server keeps the first `stat.size` bytes and appends the whole local file after them. | remote file `[1]`, local file `[1, 2]`: the remote file becomes `[1, 1, 2]` | send the local file from byte `stat.size` on, so the remote file ends equal to the local one | not executed; medium, since it depends on the FTP library sending the given stream unchanged after REST | FtpClient.AsWrittenResumeDuplicatesPrefix | FtpClient.VerifyResumeCompletes |
