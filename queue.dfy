/**
 * The work queue (src/Queue.ts): an ordered array of FileItem records that
 * the queue alone mutates. Readers get snapshots (Item values), never the
 * stored objects.
 */
module WorkQueue {
  import opened Wrappers
  import opened Types
  import opened FileItems
  import opened QueueSpec

  /** The notifications the queue emits as an EventEmitter. */
  datatype QueueEvent =
    | ItemAdded(descriptor: Descriptor)
    | ItemRemoved
    | BulkItemsAdded(items: seq<Item>)
    | QueueCleared

  /** The `{ finished, error }` record statusCount returns. */
  datatype StatusCount = StatusCount(finished: nat, error: nat)

  class Queue {
    var queue: seq<FileItem>
    ghost var Contents: seq<Item>           // snapshots of the stored records, in order
    ghost var Emitted: seq<QueueEvent>      // every notification emitted so far
    ghost var Repr: set<object>

    ghost predicate Valid()
      reads this, Repr
    {
      && this in Repr
      && |Contents| == |queue|
      && (forall k :: 0 <= k < |queue| ==> queue[k] in Repr && queue[k].Copy() == Contents[k])
      && (forall j, k :: 0 <= j < k < |queue| ==> queue[j] != queue[k])
    }

    constructor ()
      ensures Valid() && fresh(Repr)
      ensures Contents == [] && Emitted == []
    {
      queue := [];
      Contents, Emitted := [], [];
      Repr := {this};
    }

    /** `get size`: the number of stored items, whatever their status. */
    function Size(): (n: nat)
      requires Valid()
      reads this, Repr
      ensures n == |Contents|
    {
      |queue|
    }

    /** `get statusCount`: how many items are Complete and how many are in Error. */
    method GetStatusCount() returns (c: StatusCount)
      requires Valid()
      ensures c.finished == CountStatus(Contents, Complete)
      ensures c.error == CountStatus(Contents, Error)
      ensures c.finished + c.error <= |Contents|
    {
      var finishedCount, errorCount := 0, 0;
      for i := 0 to |queue|
        invariant finishedCount == CountStatus(Contents[..i], Complete)
        invariant errorCount == CountStatus(Contents[..i], Error)
      {
        assert Contents[..i + 1][..i] == Contents[..i];
        match queue[i].status
        case Complete => finishedCount := finishedCount + 1;
        case Error => errorCount := errorCount + 1;
        case _ =>
      }
      assert Contents[..|queue|] == Contents;
      c := StatusCount(finishedCount, errorCount);
      FinishedAndErrorBounded(Contents);
    }

    /** Appends one new Ready item built from `d` and returns the new length. */
    method AddItem(freshId: string, d: Descriptor) returns (n: nat)
      requires Valid()
      modifies this
      ensures Valid() && fresh(Repr - old(Repr))
      ensures Contents == old(Contents) + [FromDescriptor(freshId, d)]
      ensures n == |Contents| == |old(Contents)| + 1
      ensures Emitted == old(Emitted) + [ItemAdded(d)]
    {
      var item := new FileItem(freshId, d);
      queue := queue + [item];
      Contents := Contents + [item.Copy()];
      Repr := Repr + {item};
      Emitted := Emitted + [ItemAdded(d)];
      n := |queue|;
    }

    /**
     * Removes the first item whose id matches and returns it; emits
     * `itemRemoved` whether or not anything was removed.
     */
    method RemoveItemById(id: string) returns (removed: Option<Item>)
      requires Valid()
      modifies this
      ensures Valid() && Repr == old(Repr)
      ensures Contents == RemoveFirst(old(Contents), id).rest
      ensures removed == RemoveFirst(old(Contents), id).removed
      ensures removed.Some? <==> IndexOfId(old(Contents), id) >= 0
      ensures Emitted == old(Emitted) + [ItemRemoved]
    {
      var item, position := GetItemWithPosition(id);
      removed := None;
      if position != -1 {
        removed := Some(item.Copy());
        Cut(position);
      }
      Emitted := Emitted + [ItemRemoved];
    }

    /** Cuts the record at `position` out of the queue; the others keep their order. */
    method Cut(position: nat)
      requires Valid() && position < |queue|
      modifies this
      ensures Valid() && Repr == old(Repr) && Emitted == old(Emitted)
      ensures Contents == old(Contents[..position] + Contents[position + 1..])
    {
      queue := queue[..position] + queue[position + 1..];
      Contents := Contents[..position] + Contents[position + 1..];
    }

    /** A copy of the first item whose id matches, or None. */
    method GetItemById(id: string) returns (r: Option<Item>)
      requires Valid()
      ensures r == Lookup(Contents, id)
    {
      for i := 0 to |queue|
        invariant forall k :: 0 <= k < i ==> Contents[k].id != id
      {
        if queue[i].id == id {
          return Some(queue[i].Copy());
        }
      }
      return None;
    }

    /** Copies of all items, in queue order. */
    method GetItems() returns (r: seq<Item>)
      requires Valid()
      ensures r == Contents
    {
      r := [];
      for i := 0 to |queue|
        invariant r == Contents[..i]
      {
        r := r + [queue[i].Copy()];
      }
    }

    /** Appends one new Ready item per descriptor, in order, and emits them in one notification. */
    method BulkAddItems(ds: seq<Descriptor>, freshIds: seq<string>)
      requires Valid() && |freshIds| == |ds|
      modifies this
      ensures Valid() && fresh(Repr - old(Repr))
      ensures Contents == old(Contents) + Created(freshIds, ds)
      ensures Emitted == old(Emitted) + [BulkItemsAdded(Created(freshIds, ds))]
    {
      var bulk: seq<FileItem> := [];
      ghost var added: set<object> := {};
      for i := 0 to |ds|
        invariant unchanged(this)
        invariant |bulk| == i && fresh(added)
        invariant forall k :: 0 <= k < i ==> bulk[k] in added && bulk[k].Copy() == FromDescriptor(freshIds[k], ds[k])
        invariant forall j, k :: 0 <= j < k < i ==> bulk[j] != bulk[k]
      {
        var item := new FileItem(freshIds[i], ds[i]);
        bulk := bulk + [item];
        added := added + {item};
      }
      Append(bulk, added, Created(freshIds, ds));
      Emitted := Emitted + [BulkItemsAdded(Created(freshIds, ds))];
    }

    /** Stores the records of `bulk`, new objects whose snapshots are `items`, at the end of the queue. */
    method Append(bulk: seq<FileItem>, ghost added: set<object>, ghost items: seq<Item>)
      requires Valid() && added !! Repr
      requires |bulk| == |items|
      requires forall k :: 0 <= k < |bulk| ==> bulk[k] in added && bulk[k].Copy() == items[k]
      requires forall j, k :: 0 <= j < k < |bulk| ==> bulk[j] != bulk[k]
      modifies this
      ensures Valid() && Repr == old(Repr) + added && Emitted == old(Emitted)
      ensures Contents == old(Contents) + items
    {
      queue := queue + bulk;
      Contents := Contents + items;
      Repr := Repr + added;
    }

    /** Empties the queue. */
    method Clear()
      requires Valid()
      modifies this
      ensures Valid() && Repr == old(Repr)
      ensures Contents == [] && Size() == 0
      ensures Emitted == old(Emitted) + [QueueCleared]
    {
      queue := [];
      Contents := [];
      Emitted := Emitted + [QueueCleared];
    }

    /**
     * Sets status and error of the first item whose id matches; the error
     * becomes None when the message is missing or empty.
     */
    method SetItemStatusById(id: string, status: ItemStatus, message: Option<string>)
      requires Valid()
      modifies Repr
      ensures Valid() && Repr == old(Repr) && Emitted == old(Emitted)
      ensures Contents == WithStatus(old(Contents), id, status, message)
    {
      var record, position := GetItemWithPosition(id);
      if position != -1 {
        ghost var target := WithStatus(Contents, id, status, message);
        record.status := status;
        record.error := ErrorField(message);
        Resync(target);
      }
    }

    method SetItemStatus(item: Item, status: ItemStatus, message: Option<string>)
      requires Valid()
      modifies Repr
      ensures Valid() && Repr == old(Repr) && Emitted == old(Emitted)
      ensures Contents == WithStatus(old(Contents), item.id, status, message)
    {
      SetItemStatusById(item.id, status, message);
    }

    /** Sets `transferred` on every item whose id matches the given item's. */
    method SetItemTransferred(item: Item, transferred: nat)
      requires Valid()
      modifies Repr
      ensures Valid() && Repr == old(Repr) && Emitted == old(Emitted)
      ensures Contents == WithTransferred(old(Contents), item.id, transferred)
    {
      ghost var target := WithTransferred(Contents, item.id, transferred);
      Stamp(item.id, transferred, target);
      Resync(target);
    }

    /** Takes `target`, which the stored records now match, as the snapshot. */
    method Resync(ghost target: seq<Item>)
      requires this in Repr && |target| == |queue|
      requires forall k :: 0 <= k < |queue| ==> queue[k] in Repr && queue[k].Copy() == target[k]
      requires forall j, k :: 0 <= j < k < |queue| ==> queue[j] != queue[k]
      modifies this
      ensures Valid() && Contents == target
      ensures queue == old(queue) && Repr == old(Repr) && Emitted == old(Emitted)
    {
      Contents := target;
    }

    /** The loop of setItemTransferred: brings each stored record to its entry in `target`. */
    method Stamp(id: string, transferred: nat, ghost target: seq<Item>)
      requires |target| == |queue|
      requires forall k :: 0 <= k < |queue| ==> queue[k] in Repr
      requires forall j, k :: 0 <= j < k < |queue| ==> queue[j] != queue[k]
      requires forall k :: 0 <= k < |queue| ==>
        target[k] == if queue[k].id == id then queue[k].Copy().(transferred := transferred) else queue[k].Copy()
      modifies Repr
      ensures unchanged(this)
      ensures forall k :: 0 <= k < |queue| ==> queue[k].Copy() == target[k]
    {
      for i := 0 to |queue|
        invariant unchanged(this)
        invariant forall k :: 0 <= k < i ==> queue[k].Copy() == target[k]
        invariant forall k :: i <= k < |queue| ==> queue[k].Copy() == old(queue[k].Copy())
      {
        if queue[i].id == id {
          queue[i].SetTransferred(transferred);
        }
      }
    }

    /** The same operation as SetItemTransferred, kept under its second name. */
    method UpdateItemTransferred(item: Item, transferred: nat)
      requires Valid()
      modifies Repr
      ensures Valid() && Repr == old(Repr) && Emitted == old(Emitted)
      ensures Contents == WithTransferred(old(Contents), item.id, transferred)
    {
      SetItemTransferred(item, transferred);
    }

    /** A copy of the first Ready item in insertion order, or None; changes nothing. */
    method NextReadyItem() returns (r: Option<Item>)
      requires Valid()
      ensures r == NextReady(Contents)
    {
      for i := 0 to |queue|
        invariant forall k :: 0 <= k < i ==> Contents[k].status != Ready
      {
        if queue[i].status == Ready {
          return Some(queue[i].Copy());
        }
      }
      return None;
    }

    /** The stored record with the given id and its position, or null and -1. */
    method GetItemWithPosition(id: string) returns (item: FileItem?, position: int)
      requires Valid()
      ensures position == IndexOfId(Contents, id)
      ensures position == -1 ==> item == null
      ensures position >= 0 ==> item == queue[position]
    {
      for i := 0 to |queue|
        invariant forall k :: 0 <= k < i ==> Contents[k].id != id
      {
        if queue[i].id == id {
          return queue[i], i;
        }
      }
      return null, -1;
    }
  }
}
