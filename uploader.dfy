/**
 * The sequential upload orchestrator (src/Uploader.ts). It owns the work
 * queue, runs one item at a time, and estimates the transfer speed.
 *
 * The source chains promises and timers. Here each continuation that can
 * be outstanding is recorded in `pending`, together with the item its
 * closure captured. Its settlement is a public event method: the directory
 * creation, the parent listing, the transfer and the 500 ms progress tick.
 * What the filesystem answers (does a local path exist) and the clock are
 * parameters of those methods.
 */
module Orchestrator {
  import opened Wrappers
  import opened Types
  import opened FileItems
  import opened QueueSpec
  import opened WorkQueue
  import opened SpeedMeter
  import opened Scheduling

  /** The continuation the orchestrator is waiting for, with the item it captured. */
  datatype Pending =
    | Idle
    | CreatingDirectory(item: Item)   // directory item: mkdirRecursive(dirname(serverPath))
    | ListingParent(item: Item)       // file item, makeSureDirExist: readdir(dirname(serverPath))
    | CreatingParent(item: Item)      // the listing failed: mkdirRecursive(dirname(serverPath))
    | Transferring(item: Item)        // ftpClient.upload(stream, serverPath), progress timer armed

  /** The record `transferStatus` returns. */
  datatype TransferStatus = TransferStatus(
    isUploading: bool,
    isFinished: bool,
    speedAverage: int,
    total: nat,
    finishedCount: nat,
    errorCount: nat)

  /** What uploadItem starts for an item whose local path exists. */
  function Awaiting(item: Item): Pending {
    if item.isDirectory then CreatingDirectory(item) else ListingParent(item)
  }

  /** `item` is the single Uploading item of `s`. */
  predicate InFlight(s: seq<Item>, item: Item) {
    var q := IndexOfId(s, item.id);
    && q >= 0
    && s[q].status == Uploading
    && FixedPart(s[q]) == FixedPart(item)
    && CountStatus(s, Uploading) == 1
  }

  /** Identifiers the generator hands out: pairwise distinct and not yet in the queue. */
  predicate FreshIds(ids: seq<string>, s: seq<Item>) {
    && (forall j, k :: 0 <= j < k < |ids| ==> ids[j] != ids[k])
    && (forall k :: 0 <= k < |ids| ==> IndexOfId(s, ids[k]) == -1)
  }

  /** The queue after completeUploadItem has marked `item` and before the loop advances. */
  function Completed(s: seq<Item>, item: Item): (r: seq<Item>)
    ensures |r| == |s|
    ensures var p := IndexOfId(s, item.id);
      p >= 0 ==> r[p].status == ItemStatus.Complete && r[p].error == None && r[p].transferred == item.size
  {
    WithTransferred(WithStatus(s, item.id, ItemStatus.Complete, None), item.id, item.size)
  }

  /** The orchestrator's fields apart from the queue. */
  datatype Phase = Phase(
    isUploading: bool,
    isFinished: bool,
    currentUploadingId: Option<string>,
    pending: Pending,
    timerArmed: bool,
    meter: Meter)

  /**
   * Where a pass of the scheduling loop stops: waiting on the picked item's
   * first continuation with the estimator untouched, or, when nothing was
   * picked, finished with every transient field reset.
   */
  function AfterPass(picked: Option<Item>, m0: Meter): Phase {
    match picked
    case None => Phase(false, true, None, Idle, false, Initial)
    case Some(item) => Phase(true, false, Some(item.id), Awaiting(item), false, m0)
  }

  class Uploader {
    var isUploading: bool
    var isFinished: bool
    var lastTransferred: int
    var lastProcessTime: int
    var currentUploadingPath: string
    var currentUploadingId: Option<string>   // None stands for the source's -1
    var speedAverageArr: seq<real>
    var speedAverage: int
    const queue: Queue
    var timerArmed: bool                     // stepTimeout != null
    var pending: Pending

    /** The speed estimator's fields, as one value. */
    function Meter(): Meter
      reads this
    {
      SpeedMeter.Meter(lastTransferred, lastProcessTime, currentUploadingPath, speedAverageArr, speedAverage)
    }

    /** The queue is sound, apart from the orchestrator, and its ids are unique. */
    ghost predicate QueueOk()
      reads queue, queue.Repr
    {
      && queue.Valid()
      && this !in queue.Repr
      && UniqueIds(queue.Contents)
    }

    /** The queue is sound and the estimator's window consistent. */
    ghost predicate Base()
      reads this, queue, queue.Repr
    {
      QueueOk() && WellFormed(Meter())
    }

    /**
     * Between events: either idle, with nothing Ready or Uploading and every
     * transient field at its initial value, or waiting on one continuation
     * whose item is the single Uploading item.
     */
    ghost predicate Valid()
      reads this, queue, queue.Repr
    {
      && Base()
      && (pending.Idle? ==>
            && !isUploading && currentUploadingId.None? && !timerArmed && Meter() == Initial
            && CountStatus(queue.Contents, Ready) == 0 && CountStatus(queue.Contents, Uploading) == 0)
      && (!pending.Idle? ==>
            && isUploading && !isFinished && currentUploadingId == Some(pending.item.id)
            && timerArmed == pending.Transferring?
            && InFlight(queue.Contents, pending.item))
    }

    /** The orchestrator's own fields, as one value. */
    function Snapshot(): Phase
      reads this
    {
      Phase(isUploading, isFinished, currentUploadingId, pending, timerArmed, Meter())
    }

    /** The state a synchronous run of the scheduling loop leaves behind. */
    ghost predicate Launched(r: Launch, m0: SpeedMeter.Meter)
      reads this, queue
    {
      queue.Contents == r.contents && Snapshot() == AfterPass(r.picked, m0)
    }

    /** Ready for the scheduling loop to pick the next item. */
    ghost predicate Advancing()
      reads this, queue, queue.Repr
    {
      && Base()
      && isUploading && !isFinished && pending.Idle? && !timerArmed
      && CountStatus(queue.Contents, Uploading) == 0
    }

    constructor ()
      ensures Valid() && fresh(queue) && fresh(queue.Repr)
      ensures queue.Contents == [] && !isUploading && !isFinished && pending.Idle?
    {
      isUploading, isFinished := false, false;
      lastTransferred, lastProcessTime, currentUploadingPath := 0, 0, "";
      currentUploadingId := None;
      speedAverageArr, speedAverage := [], 0;
      queue := new Queue();
      timerArmed, pending := false, Idle;
    }

    /** `get transferStatus`: the flags, the average and the queue's counts. */
    method GetTransferStatus() returns (ts: TransferStatus)
      requires Base()
      ensures ts.isUploading == isUploading && ts.isFinished == isFinished && ts.speedAverage == speedAverage
      ensures ts.total == |queue.Contents|
      ensures ts.finishedCount == CountStatus(queue.Contents, ItemStatus.Complete)
      ensures ts.errorCount == CountStatus(queue.Contents, ItemStatus.Error)
      ensures ts.finishedCount + ts.errorCount <= ts.total
    {
      var finished := queue.GetStatusCount();
      var errors := queue.GetStatusCount();
      ts := TransferStatus(isUploading, isFinished, speedAverage, queue.Size(), finished.finished, errors.error);
    }

    /**
     * Enqueues a batch. The loop is started only when no item is current;
     * otherwise the new items wait for the running loop. An empty batch
     * changes nothing.
     */
    method Upload(files: seq<Descriptor>, freshIds: seq<string>, existing: set<string>)
      requires Valid() && |freshIds| == |files| && FreshIds(freshIds, queue.Contents)
      modifies this, queue.Repr
      ensures Valid() && fresh(queue.Repr - old(queue.Repr))
      ensures files == [] ==> unchanged(this) && queue.Contents == old(queue.Contents) && queue.Emitted == old(queue.Emitted)
      ensures files != [] ==> queue.Emitted == old(queue.Emitted) + [BulkItemsAdded(Created(freshIds, files))]
      ensures files != [] && old(currentUploadingId).Some? ==>
        unchanged(this) && queue.Contents == old(queue.Contents) + Created(freshIds, files)
      ensures files != [] && old(currentUploadingId).None? ==>
        Launched(Drain(old(queue.Contents) + Created(freshIds, files), existing), Initial)
    {
      if |files| > 0 {
        ghost var before := queue.Contents;
        EnqueueKeepsState(before, freshIds, files);
        queue.BulkAddItems(files, freshIds);
        ghost var enqueued := queue.Contents;
        assert enqueued == before + Created(freshIds, files);
        if currentUploadingId.None? {
          BeginBatch();
          StartUpload(existing);
          assert Launched(Drain(enqueued, existing), Initial);
        } else {
          AppendKeepsIndex(before, Created(freshIds, files), pending.item.id);
        }
      }
    }

    /** Takes the first Ready item, or finishes the batch when there is none. */
    method StartUpload(existing: set<string>)
      requires Advancing()
      modifies this, queue.Repr
      ensures Valid() && queue.Repr == old(queue.Repr) && queue.Emitted == old(queue.Emitted)
      ensures Launched(Drain(old(queue.Contents), existing), old(Meter()))
      decreases Unsettled(queue.Contents), 4
    {
      var item := queue.NextReadyItem();
      DrainStartsWithNextReady(queue.Contents, existing);
      if item.Some? {
        UploadItem(item.value, existing);
      } else {
        CountZero(queue.Contents, Ready);
        UploadQueueFinished();
      }
    }

    /**
     * One call of step: records `transferred` on the item and, from the
     * second sample of a session on, pushes a speed into the window.
     */
    method Step(transferred: nat, item: Item, now: int)
      requires Base() && now > lastProcessTime
      modifies this, queue.Repr
      ensures Base() && queue.Repr == old(queue.Repr) && queue.Emitted == old(queue.Emitted)
      ensures queue.Contents == WithTransferred(old(queue.Contents), item.id, transferred)
      ensures Meter() == Sample(old(Meter()), item.localPath, transferred, now)
      ensures isUploading == old(isUploading) && isFinished == old(isFinished)
      ensures currentUploadingId == old(currentUploadingId) && timerArmed == old(timerArmed) && pending == old(pending)
    {
      SampleKeepsWellFormed(Meter(), item.localPath, transferred, now);
      queue.SetItemTransferred(item, transferred);
      Measure(item.localPath, transferred, now);
    }

    /** The estimator half of step, which touches only the orchestrator's own fields. */
    method Measure(currentPath: string, transferred: nat, now: int)
      requires now > lastProcessTime
      modifies this
      ensures Meter() == Sample(old(Meter()), currentPath, transferred, now)
      ensures isUploading == old(isUploading) && isFinished == old(isFinished)
      ensures currentUploadingId == old(currentUploadingId) && timerArmed == old(timerArmed) && pending == old(pending)
    {
      ghost var m0 := Meter();
      ghost var target := Sample(m0, currentPath, transferred, now);
      if currentUploadingPath == "" {
        currentUploadingPath := currentPath;
      }
      var isSameFile := currentUploadingPath == currentPath;
      if lastProcessTime > 0 {
        var delta := 0;
        if isSameFile {
          delta := transferred - lastTransferred;
        } else {
          delta := transferred;
          currentUploadingPath := currentPath;
        }
        assert delta == Delta(m0, currentPath, transferred);
        var speed := Speed(delta, now - lastProcessTime);
        assert target.history == Window(m0.history + [speed]);
        PushSpeed(speed);
      }
      assert currentUploadingPath == target.currentUploadingPath;
      lastProcessTime := now;
      lastTransferred := transferred;
    }

    /** Appends a speed, keeps the last five and publishes their rounded mean. */
    method PushSpeed(speed: real)
      modifies this
      ensures speedAverageArr == Window(old(speedAverageArr) + [speed])
      ensures speedAverage == Round(Mean(speedAverageArr))
      ensures lastTransferred == old(lastTransferred) && lastProcessTime == old(lastProcessTime)
      ensures currentUploadingPath == old(currentUploadingPath)
      ensures isUploading == old(isUploading) && isFinished == old(isFinished)
      ensures currentUploadingId == old(currentUploadingId) && timerArmed == old(timerArmed) && pending == old(pending)
    {
      speedAverageArr := speedAverageArr + [speed];
      speedAverageArr := Window(speedAverageArr);
      var sum := Sum(speedAverageArr);
      speedAverage := Round(sum / (|speedAverageArr| as real));
    }

    /**
     * Marks the item Uploading and makes it current. A missing local path
     * fails it at once and the loop moves on; otherwise the directory
     * creation (directory items) or the parent listing (files) is started.
     */
    method UploadItem(item: Item, existing: set<string>)
      requires Advancing() && NextReady(queue.Contents) == Some(item)
      modifies this, queue.Repr
      ensures Valid() && queue.Repr == old(queue.Repr) && queue.Emitted == old(queue.Emitted)
      ensures Launched(Drain(old(queue.Contents), existing), old(Meter()))
      decreases Unsettled(queue.Contents), 3
    {
      ReadyMakesInFlight(queue.Contents, item);
      ReadyContinues(queue.Contents, item, existing);
      ReadyUploadItem(item);
      Proceed(item, existing);
    }

    /**
     * The rest of uploadItem once the item is current and Uploading: a
     * missing local path fails it, otherwise its first continuation starts.
     */
    method Proceed(item: Item, existing: set<string>)
      requires Base() && isUploading && !isFinished && pending.Idle? && !timerArmed
      requires currentUploadingId == Some(item.id) && InFlight(queue.Contents, item)
      modifies this, queue.Repr
      ensures Valid() && queue.Repr == old(queue.Repr) && queue.Emitted == old(queue.Emitted)
      ensures item.localPath in existing ==> Launched(Launch(old(queue.Contents), Some(item)), old(Meter()))
      ensures item.localPath !in existing ==>
        Launched(Drain(WithStatus(old(queue.Contents), item.id, ItemStatus.Error, Some(NotFoundMessage(item.localPath))), existing), old(Meter()))
      decreases Unsettled(queue.Contents), 2
    {
      if item.localPath !in existing {
        Fail(item, NotFoundMessage(item.localPath), existing);
        return;
      }
      Dispatch(item);
    }

    /** The end of uploadItem for a present path: mkdirRecursive for a directory, makeSureDirExist for a file. */
    method Dispatch(item: Item)
      requires Base() && isUploading && !isFinished && pending.Idle? && !timerArmed
      requires currentUploadingId == Some(item.id) && InFlight(queue.Contents, item)
      modifies this
      ensures Valid() && Snapshot() == old(Snapshot()).(pending := Awaiting(item))
    {
      if item.isDirectory {
        pending := CreatingDirectory(item);
      } else {
        pending := ListingParent(item);
      }
    }

    /** Clears the progress timer if armed, then fails the item. */
    method Fail(item: Item, message: string, existing: set<string>)
      requires Base() && isUploading && !isFinished && pending.Idle? && InFlight(queue.Contents, item)
      modifies this, queue.Repr
      ensures Valid() && queue.Repr == old(queue.Repr) && queue.Emitted == old(queue.Emitted)
      ensures Launched(Drain(WithStatus(old(queue.Contents), item.id, ItemStatus.Error, Some(message)), existing), old(Meter()))
      decreases Unsettled(queue.Contents), 1
    {
      ClearTimer();
      ErrorUploadItem(item, message, existing);
    }

    /** Forces a final sample at the declared size, clears the timer and completes the item. */
    method Complete(item: Item, now: int, existing: set<string>)
      requires Base() && isUploading && !isFinished && pending.Idle? && InFlight(queue.Contents, item)
      requires now > lastProcessTime
      modifies this, queue.Repr
      ensures Valid() && queue.Repr == old(queue.Repr) && queue.Emitted == old(queue.Emitted)
      ensures Launched(
        Drain(Completed(WithTransferred(old(queue.Contents), item.id, item.size), item), existing),
        Sample(old(Meter()), item.localPath, item.size, now))
    {
      TransferredKeepsInFlight(queue.Contents, item, item.id, item.size);
      Step(item.size, item, now);
      Conclude(item, existing);
    }

    /** The end of complete, after the final sample: the timer is cleared and the item completes. */
    method Conclude(item: Item, existing: set<string>)
      requires Base() && isUploading && !isFinished && pending.Idle? && InFlight(queue.Contents, item)
      modifies this, queue.Repr
      ensures Valid() && queue.Repr == old(queue.Repr) && queue.Emitted == old(queue.Emitted)
      ensures Launched(Drain(Completed(old(queue.Contents), item), existing), old(Meter()))
    {
      ClearTimer();
      CompleteUploadItem(item, existing);
    }

    /** `isUploading = true; isFinished = false`, before upload starts the loop. */
    method BeginBatch()
      requires Base()
      modifies this
      ensures Base() && Snapshot() == old(Snapshot()).(isUploading := true, isFinished := false)
    {
      isUploading := true;
      isFinished := false;
    }

    /** The awaited continuation runs: nothing is pending any more, and it hands back the item its closure captured. */
    method Settle() returns (item: Item)
      requires Valid() && !pending.Idle?
      modifies this
      ensures item == old(pending).item
      ensures Base() && InFlight(queue.Contents, item) && Snapshot() == old(Snapshot()).(pending := Idle)
    {
      item := pending.item;
      pending := Idle;
    }

    /** `clearTimeout(stepTimeout)` when a progress timer is armed. */
    method ClearTimer()
      requires Base()
      modifies this
      ensures Base() && Snapshot() == old(Snapshot()).(timerArmed := false)
    {
      if timerArmed {
        timerArmed := false;
      }
    }

    /** Opens the read stream, issues the upload and arms the 500 ms progress timer. */
    method StartTransfer(item: Item)
      requires pending.Idle?
      modifies this
      ensures pending == Transferring(item) && timerArmed
      ensures isUploading == old(isUploading) && isFinished == old(isFinished)
      ensures currentUploadingId == old(currentUploadingId) && Meter() == old(Meter())
    {
      pending := Transferring(item);
      timerArmed := true;
    }

    /** Makes the item current and marks it Uploading (clearing its error). */
    method ReadyUploadItem(item: Item)
      requires Base()
      modifies this, queue.Repr
      ensures Base() && queue.Repr == old(queue.Repr) && queue.Emitted == old(queue.Emitted)
      ensures queue.Contents == WithStatus(old(queue.Contents), item.id, Uploading, None)
      ensures currentUploadingId == Some(item.id)
      ensures isUploading == old(isUploading) && isFinished == old(isFinished)
      ensures timerArmed == old(timerArmed) && pending == old(pending) && Meter() == old(Meter())
    {
      currentUploadingId := Some(item.id);
      queue.SetItemStatus(item, Uploading, None);
    }

    /** Marks the item Complete with its declared size transferred, then advances. */
    method CompleteUploadItem(item: Item, existing: set<string>)
      requires Base() && isUploading && !isFinished && pending.Idle? && !timerArmed
      requires InFlight(queue.Contents, item)
      modifies this, queue.Repr
      ensures Valid() && queue.Repr == old(queue.Repr) && queue.Emitted == old(queue.Emitted)
      ensures Launched(Drain(Completed(old(queue.Contents), item), existing), old(Meter()))
    {
      ghost var s := queue.Contents;
      queue.SetItemStatus(item, ItemStatus.Complete, None);
      queue.SetItemTransferred(item, item.size);
      SettleLeavesNoneUploading(s, item, ItemStatus.Complete, None);
      TransferredKeepsShape(WithStatus(s, item.id, ItemStatus.Complete, None), item.id, item.size);
      StartUpload(existing);
    }

    /** Marks the item Error with the message, then advances. */
    method ErrorUploadItem(item: Item, message: string, existing: set<string>)
      requires Base() && isUploading && !isFinished && pending.Idle? && !timerArmed
      requires InFlight(queue.Contents, item)
      modifies this, queue.Repr
      ensures Valid() && queue.Repr == old(queue.Repr) && queue.Emitted == old(queue.Emitted)
      ensures Launched(Drain(WithStatus(old(queue.Contents), item.id, ItemStatus.Error, Some(message)), existing), old(Meter()))
      decreases Unsettled(queue.Contents), 0
    {
      ghost var s := queue.Contents;
      queue.SetItemStatus(item, ItemStatus.Error, Some(message));
      SettleLeavesNoneUploading(s, item, ItemStatus.Error, Some(message));
      StartUpload(existing);
    }

    /** Ends the batch: flags flipped, connection released, transient fields reset. */
    method UploadQueueFinished()
      requires Base() && pending.Idle? && !timerArmed
      requires CountStatus(queue.Contents, Ready) == 0 && CountStatus(queue.Contents, Uploading) == 0
      modifies this
      ensures Valid()
      ensures !isUploading && isFinished && currentUploadingId.None? && pending.Idle? && !timerArmed
      ensures Meter() == Initial && currentUploadingPath == "" && speedAverageArr == [] && speedAverage == 0
    {
      Reset();
    }

    /** The field writes of uploadQueueFinished, apart from the queue. */
    method Reset()
      requires pending.Idle? && !timerArmed
      modifies this
      ensures Snapshot() == AfterPass(None, Initial)
      ensures currentUploadingPath == "" && speedAverageArr == [] && speedAverage == 0
    {
      isUploading, isFinished := false, true;
      currentUploadingPath, currentUploadingId := "", None;
      lastTransferred, lastProcessTime := 0, 0;
      speedAverageArr, speedAverage := [], 0;
    }

    // ------------------------------------------------------------ events

    /** A directory item's mkdirRecursive resolved: the item is complete and the loop advances. */
    method DirectoryCreated(existing: set<string>)
      requires Valid() && pending.CreatingDirectory?
      modifies this, queue.Repr
      ensures Valid() && queue.Repr == old(queue.Repr) && queue.Emitted == old(queue.Emitted)
      ensures Launched(Drain(Completed(old(queue.Contents), old(pending).item), existing), old(Meter()))
    {
      var item := Settle();
      CompleteUploadItem(item, existing);
    }

    /** A file's missing parent directory was created: the transfer starts. */
    method ParentCreated()
      requires Valid() && pending.CreatingParent?
      modifies this
      ensures Valid()
      ensures pending == Transferring(old(pending).item) && timerArmed
      ensures queue.Contents == old(queue.Contents) && Meter() == old(Meter())
    {
      var item := Settle();
      StartTransfer(item);
    }

    /** The mkdirRecursive call failed: the item fails with the client's message. */
    method MkdirRejected(message: string, existing: set<string>)
      requires Valid() && (pending.CreatingDirectory? || pending.CreatingParent?)
      modifies this, queue.Repr
      ensures Valid() && queue.Repr == old(queue.Repr) && queue.Emitted == old(queue.Emitted)
      ensures Launched(Drain(WithStatus(old(queue.Contents), old(pending).item.id, ItemStatus.Error, Some(message)), existing), old(Meter()))
    {
      var item := Settle();
      Fail(item, message, existing);
    }

    /** The parent directory could be listed, so it exists: the transfer starts. */
    method ListingResolved()
      requires Valid() && pending.ListingParent?
      modifies this
      ensures Valid()
      ensures pending == Transferring(old(pending).item) && timerArmed && Meter() == old(Meter())
    {
      var item := Settle();
      StartTransfer(item);
    }

    /** The parent directory could not be listed: it is created instead. */
    method ListingRejected()
      requires Valid() && pending.ListingParent?
      modifies this
      ensures Valid()
      ensures pending == CreatingParent(old(pending).item) && !timerArmed && Meter() == old(Meter())
    {
      pending := CreatingParent(pending.item);
    }

    /** A progress tick with the stream's byte count: one step, the timer stays armed. */
    method Tick(now: int, bytesRead: nat)
      requires Valid() && pending.Transferring? && now > lastProcessTime
      modifies this, queue.Repr
      ensures Valid() && queue.Repr == old(queue.Repr) && queue.Emitted == old(queue.Emitted)
      ensures pending == old(pending) && timerArmed
      ensures queue.Contents == WithTransferred(old(queue.Contents), pending.item.id, bytesRead)
      ensures Meter() == Sample(old(Meter()), pending.item.localPath, bytesRead, now)
    {
      ghost var s := queue.Contents;
      Step(bytesRead, pending.item, now);
      TransferredKeepsInFlight(s, pending.item, pending.item.id, bytesRead);
    }

    /** The upload promise resolved (transfer done, or none needed): the item completes. */
    method TransferResolved(now: int, existing: set<string>)
      requires Valid() && pending.Transferring? && now > lastProcessTime
      modifies this, queue.Repr
      ensures Valid() && queue.Repr == old(queue.Repr) && queue.Emitted == old(queue.Emitted)
      ensures var item := old(pending).item;
        Launched(
          Drain(Completed(WithTransferred(old(queue.Contents), item.id, item.size), item), existing),
          Sample(old(Meter()), item.localPath, item.size, now))
    {
      var item := Settle();
      Complete(item, now, existing);
    }

    /** The upload promise rejected: the timer is cleared and the item fails with the message. */
    method TransferRejected(message: string, existing: set<string>)
      requires Valid() && pending.Transferring?
      modifies this, queue.Repr
      ensures Valid() && queue.Repr == old(queue.Repr) && queue.Emitted == old(queue.Emitted)
      ensures Launched(Drain(WithStatus(old(queue.Contents), old(pending).item.id, ItemStatus.Error, Some(message)), existing), old(Meter()))
    {
      var item := Settle();
      Fail(item, message, existing);
    }
  }

  // ------------------------------------------------------------ lemmas

  /** Enqueuing fresh Ready items keeps ids unique and the Uploading count. */
  lemma EnqueueKeepsState(s: seq<Item>, ids: seq<string>, ds: seq<Descriptor>)
    requires UniqueIds(s) && |ids| == |ds| && FreshIds(ids, s)
    ensures UniqueIds(s + Created(ids, ds))
    ensures CountStatus(s + Created(ids, ds), Uploading) == CountStatus(s, Uploading)
  {
    var t := Created(ids, ds);
    CountAppend(s, t, Uploading);
    CountZero(t, Uploading);
    var u := s + t;
    forall j, k | 0 <= j < k < |u|
      ensures u[j].id != u[k].id
    {
      if k >= |s| && j < |s| {
        assert u[k].id == ids[k - |s|];
      }
    }
  }

  /** Marking the next Ready item Uploading makes it the single one in flight. */
  lemma ReadyMakesInFlight(s: seq<Item>, item: Item)
    requires UniqueIds(s) && NextReady(s) == Some(item) && CountStatus(s, Uploading) == 0
    ensures var s1 := WithStatus(s, item.id, Uploading, None);
      InFlight(s1, item) && Unsettled(s1) == Unsettled(s)
  {
    UniqueIndex(s, FirstReady(s));
    MarkInFlight(s, item);
  }

  /** Marking a Ready item Uploading, with no other item Uploading, makes it the one in flight. */
  lemma MarkInFlight(s: seq<Item>, item: Item)
    requires IndexOfId(s, item.id) >= 0 && s[IndexOfId(s, item.id)] == item && item.status == Ready
    requires CountStatus(s, Uploading) == 0
    ensures var s1 := WithStatus(s, item.id, Uploading, None);
      InFlight(s1, item) && Unsettled(s1) == Unsettled(s)
  {
    ShapeKeepsIndex(s, WithStatus(s, item.id, Uploading, None), item.id);
    WithStatusCounts(s, item.id, Uploading, None, Uploading);
    WithStatusCounts(s, item.id, Uploading, None, Ready);
  }

  /** The pass from `s` continues as uploadItem does once it has marked the next Ready item. */
  lemma ReadyContinues(s: seq<Item>, item: Item, existing: set<string>)
    requires UniqueIds(s) && NextReady(s) == Some(item)
    ensures var s1 := WithStatus(s, item.id, Uploading, None);
      && (item.localPath in existing ==> Drain(s, existing) == Launch(s1, Some(item)))
      && (item.localPath !in existing ==>
            Drain(s, existing) == Drain(WithStatus(s1, item.id, ItemStatus.Error, Some(NotFoundMessage(item.localPath))), existing))
  {
    DrainUnfold(s, existing);
    FailFirstReady(s, NotFoundMessage(item.localPath));
  }

  /** Settling the item in flight leaves nothing Uploading and one fewer unsettled item. */
  lemma SettleLeavesNoneUploading(s: seq<Item>, item: Item, st: ItemStatus, message: Option<string>)
    requires InFlight(s, item) && (st == Complete || st == ItemStatus.Error)
    ensures CountStatus(WithStatus(s, item.id, st, message), Uploading) == 0
    ensures Unsettled(WithStatus(s, item.id, st, message)) < Unsettled(s)
  {
    WithStatusCounts(s, item.id, st, message, Uploading);
    WithStatusCounts(s, item.id, st, message, Ready);
  }

  lemma TransferredKeepsInFlight(s: seq<Item>, item: Item, id: string, n: nat)
    requires InFlight(s, item)
    ensures InFlight(WithTransferred(s, id, n), item)
  {
    TransferredKeepsShape(s, id, n);
    ShapeKeepsIndex(s, WithTransferred(s, id, n), item.id);
  }

  /** While an item is in flight, every Uploading item of the queue is that item's record. */
  lemma SingleUploading(s: seq<Item>, item: Item)
    requires InFlight(s, item)
    ensures forall k :: 0 <= k < |s| && s[k].status == Uploading ==> k == IndexOfId(s, item.id) && s[k].id == item.id
  {
    CountOne(s, IndexOfId(s, item.id), Uploading);
  }

  /** A failed item is left alone by the rest of the pass, with its message. */
  lemma FailedStays(s: seq<Item>, item: Item, message: string, existing: set<string>)
    requires UniqueIds(s) && InFlight(s, item)
    ensures var f := WithStatus(s, item.id, ItemStatus.Error, Some(message));
      var r := Drain(f, existing).contents;
      var q := IndexOfId(r, item.id);
      q >= 0 && r[q].status == ItemStatus.Error && r[q].error == ErrorField(Some(message))
  {
    var f := WithStatus(s, item.id, ItemStatus.Error, Some(message));
    ShapeKeepsIndex(s, f, item.id);
    var r := Drain(f, existing).contents;
    DrainKeepsSettled(f, existing);
    ShapeKeepsIndex(f, r, item.id);
  }

  /** A completed item is left alone by the rest of the pass. */
  lemma CompletedStays(s: seq<Item>, item: Item, existing: set<string>)
    requires UniqueIds(s) && InFlight(s, item)
    ensures var c := Completed(s, item);
      var r := Drain(c, existing).contents;
      var q := IndexOfId(r, item.id);
      q >= 0 && r[q].status == ItemStatus.Complete && r[q].transferred == item.size && r[q].size == item.size
  {
    var c := Completed(s, item);
    var w := WithStatus(s, item.id, ItemStatus.Complete, None);
    TransferredKeepsShape(w, item.id, item.size);
    ShapeKeepsIndex(s, w, item.id);
    ShapeKeepsIndex(w, c, item.id);
    var r := Drain(c, existing).contents;
    DrainKeepsSettled(c, existing);
    ShapeKeepsIndex(c, r, item.id);
  }
}
