/**
 * The work queue's contents as a value: the searches, updates and counts
 * that the Queue class performs on its stored records, stated over the
 * sequence of their snapshots, and the facts about them that the queue
 * and the orchestrator rely on.
 */
module QueueSpec {
  import opened Wrappers
  import opened Types
  import opened FileItems

  /** No two items share an identifier (what the uuid generator provides). */
  predicate UniqueIds(s: seq<Item>) {
    forall j, k :: 0 <= j < k < |s| ==> s[j].id != s[k].id
  }

  /** Same length and, position by position, the same identity and descriptor fields. */
  predicate SameShape(s: seq<Item>, r: seq<Item>) {
    |r| == |s| && forall k :: 0 <= k < |s| ==> FixedPart(r[k]) == FixedPart(s[k])
  }

  /** Position of the first item whose id is `id`, or -1 (getItemWithPosition). */
  function IndexOfId(s: seq<Item>, id: string): (p: int)
    ensures -1 <= p < |s|
    ensures p >= 0 ==> s[p].id == id && forall k :: 0 <= k < p ==> s[k].id != id
    ensures p == -1 ==> forall k :: 0 <= k < |s| ==> s[k].id != id
  {
    if s == [] then -1
    else if s[0].id == id then 0
    else
      var q := IndexOfId(s[1..], id);
      if q == -1 then -1 else q + 1
  }

  /** Position of the first item in Ready status, or -1. */
  function FirstReady(s: seq<Item>): (p: int)
    ensures -1 <= p < |s|
    ensures p >= 0 ==> s[p].status == Ready && forall k :: 0 <= k < p ==> s[k].status != Ready
    ensures p == -1 ==> forall k :: 0 <= k < |s| ==> s[k].status != Ready
  {
    if s == [] then -1
    else if s[0].status == Ready then 0
    else
      var q := FirstReady(s[1..]);
      if q == -1 then -1 else q + 1
  }

  /** Number of items in status `st`. */
  function CountStatus(s: seq<Item>, st: ItemStatus): (n: nat)
    ensures n <= |s|
  {
    if s == [] then 0
    else CountStatus(s[..|s| - 1], st) + (if s[|s| - 1].status == st then 1 else 0)
  }

  /** Items not yet in a terminal status; each scheduling step lowers it. */
  function Unsettled(s: seq<Item>): nat {
    CountStatus(s, Ready) + CountStatus(s, Uploading)
  }

  /** JavaScript's `error || null`: a missing or empty message records no error. */
  function ErrorField(message: Option<string>): (e: Option<string>)
    ensures e.Some? <==> message.Some? && message.value != ""
    ensures e.Some? ==> e == message
  {
    if message.Some? && message.value != "" then message else None
  }

  /** setItemStatusById: only the first item with a matching id gets the status and error. */
  function WithStatus(s: seq<Item>, id: string, st: ItemStatus, message: Option<string>): (r: seq<Item>)
    ensures SameShape(s, r) && (UniqueIds(s) ==> UniqueIds(r))
    ensures IndexOfId(s, id) == -1 ==> r == s
    ensures var p := IndexOfId(s, id);
      p >= 0 ==> r[p].status == st && r[p].error == ErrorField(message) && r[p].transferred == s[p].transferred
    ensures forall k :: 0 <= k < |s| && k != IndexOfId(s, id) ==> r[k] == s[k]
  {
    var p := IndexOfId(s, id);
    if p == -1 then s else s[p := s[p].(status := st, error := ErrorField(message))]
  }

  /** setItemTransferred: every item with a matching id gets the byte count; nothing else changes. */
  function WithTransferred(s: seq<Item>, id: string, n: nat): (r: seq<Item>)
    ensures |r| == |s| && (UniqueIds(s) ==> UniqueIds(r))
    ensures forall k :: 0 <= k < |s| ==> r[k] == if s[k].id == id then s[k].(transferred := n) else s[k]
  {
    if s == [] then []
    else [if s[0].id == id then s[0].(transferred := n) else s[0]] + WithTransferred(s[1..], id, n)
  }

  /** The items bulkAddItems creates, in the order of the descriptors. */
  function Created(ids: seq<string>, ds: seq<Descriptor>): (r: seq<Item>)
    requires |ids| == |ds|
    ensures |r| == |ds|
    ensures forall k :: 0 <= k < |ds| ==> r[k] == FromDescriptor(ids[k], ds[k])
  {
    if ds == [] then [] else [FromDescriptor(ids[0], ds[0])] + Created(ids[1..], ds[1..])
  }

  datatype Removal = Removal(rest: seq<Item>, removed: Option<Item>)

  /** removeItemById: the first item with a matching id is cut out, the others keep their order. */
  function RemoveFirst(s: seq<Item>, id: string): (r: Removal)
    ensures IndexOfId(s, id) == -1 ==> r == Removal(s, None)
    ensures var p := IndexOfId(s, id);
      p >= 0 ==> (r.removed == Some(s[p]) && |r.rest| == |s| - 1 &&
                  forall k :: 0 <= k < |r.rest| ==> r.rest[k] == s[if k < p then k else k + 1])
  {
    var p := IndexOfId(s, id);
    if p == -1 then Removal(s, None)
    else
      var rest := s[..p] + s[p + 1..];
      assert forall k :: 0 <= k < |rest| ==> rest[k] == s[if k < p then k else k + 1];
      Removal(rest, Some(s[p]))
  }

  /** getItemById on the snapshot. */
  function Lookup(s: seq<Item>, id: string): (r: Option<Item>)
    ensures r.Some? <==> exists k :: 0 <= k < |s| && s[k].id == id
    ensures r.Some? ==> r.value.id == id && r.value in s
    ensures r.Some? ==> IndexOfId(s, id) >= 0 && r.value == s[IndexOfId(s, id)]
  {
    var p := IndexOfId(s, id);
    if p == -1 then None else Some(s[p])
  }

  /** nextReadyItem on the snapshot. */
  function NextReady(s: seq<Item>): (r: Option<Item>)
    ensures r.Some? <==> exists k :: 0 <= k < |s| && s[k].status == Ready
    ensures r.Some? ==> r.value.status == Ready && r.value in s
    ensures r.Some? ==> FirstReady(s) >= 0 && r.value == s[FirstReady(s)]
  {
    var p := FirstReady(s);
    if p == -1 then None else Some(s[p])
  }

  // ---------------------------------------------------------------- counting

  lemma {:induction false} CountAppend(s: seq<Item>, t: seq<Item>, st: ItemStatus)
    ensures CountStatus(s + t, st) == CountStatus(s, st) + CountStatus(t, st)
    decreases |t|
  {
    if t == [] {
      assert s + t == s;
    } else {
      var t' := t[..|t| - 1];
      assert (s + t)[..|s + t| - 1] == s + t';
      CountAppend(s, t', st);
    }
  }

  /** Replacing one item changes each count by what left and what came in. */
  lemma {:induction false} CountUpdate(s: seq<Item>, p: nat, it: Item, st: ItemStatus)
    requires p < |s|
    ensures CountStatus(s[p := it], st) ==
      CountStatus(s, st) - (if s[p].status == st then 1 else 0) + (if it.status == st then 1 else 0)
  {
    var r := s[p := it];
    assert s == s[..p] + [s[p]] + s[p + 1..];
    assert r == s[..p] + [it] + s[p + 1..];
    CountAppend(s[..p] + [s[p]], s[p + 1..], st);
    CountAppend(s[..p], [s[p]], st);
    CountAppend(s[..p] + [it], s[p + 1..], st);
    CountAppend(s[..p], [it], st);
    assert CountStatus([s[p]], st) == CountStatus([s[p]][..0], st) + (if s[p].status == st then 1 else 0);
    assert CountStatus([it], st) == CountStatus([it][..0], st) + (if it.status == st then 1 else 0);
  }

  /** Every item is in exactly one of the four statuses. */
  lemma {:induction false} CountPartition(s: seq<Item>)
    ensures CountStatus(s, Ready) + CountStatus(s, Uploading) + CountStatus(s, Complete) + CountStatus(s, Error) == |s|
  {
    if s != [] {
      CountPartition(s[..|s| - 1]);
    }
  }

  /** The two counts statusCount reports never exceed the queue size. */
  lemma FinishedAndErrorBounded(s: seq<Item>)
    ensures CountStatus(s, Complete) + CountStatus(s, Error) <= |s|
  {
    CountPartition(s);
  }

  lemma {:induction false} CountZero(s: seq<Item>, st: ItemStatus)
    ensures CountStatus(s, st) == 0 <==> forall k :: 0 <= k < |s| ==> s[k].status != st
  {
    if s != [] {
      CountZero(s[..|s| - 1], st);
    }
  }

  /** A count of one pins the single item in that status. */
  lemma {:induction false} CountOne(s: seq<Item>, p: nat, st: ItemStatus)
    requires p < |s| && s[p].status == st && CountStatus(s, st) == 1
    ensures forall k :: 0 <= k < |s| && k != p ==> s[k].status != st
  {
    forall k | 0 <= k < |s| && k != p
      ensures s[k].status != st
    {
      var r := s[k := s[k].(status := if st == Ready then Error else Ready)];
      CountUpdate(s, k, r[k], st);
      CountZero(r, st);
      assert r[p] == s[p];
    }
  }

  // ---------------------------------------------------------------- identity

  /** With unique ids, looking up an item's own id finds that item. */
  lemma UniqueIndex(s: seq<Item>, p: nat)
    requires UniqueIds(s) && p < |s|
    ensures IndexOfId(s, s[p].id) == p
  {
  }

  /** An update that keeps every item's identity keeps every id search's answer. */
  lemma {:induction false} ShapeKeepsIndex(s: seq<Item>, r: seq<Item>, id: string)
    requires SameShape(s, r)
    ensures IndexOfId(r, id) == IndexOfId(s, id)
    decreases |s|
  {
    if s != [] {
      assert FixedPart(r[0]) == FixedPart(s[0]);
      ShapeKeepsIndex(s[1..], r[1..], id);
    }
  }

  lemma ShapeKeepsUnique(s: seq<Item>, r: seq<Item>)
    requires SameShape(s, r) && UniqueIds(s)
    ensures UniqueIds(r)
  {
    forall j, k | 0 <= j < k < |r|
      ensures r[j].id != r[k].id
    {
      assert FixedPart(r[j]) == FixedPart(s[j]) && FixedPart(r[k]) == FixedPart(s[k]);
    }
  }

  lemma TransferredKeepsShape(s: seq<Item>, id: string, n: nat)
    ensures SameShape(s, WithTransferred(s, id, n))
    ensures forall st: ItemStatus :: CountStatus(WithTransferred(s, id, n), st) == CountStatus(s, st)
  {
    var r := WithTransferred(s, id, n);
    forall st: ItemStatus
      ensures CountStatus(r, st) == CountStatus(s, st)
    {
      StatusesKeepCount(s, r, st);
    }
  }

  lemma {:induction false} StatusesKeepCount(s: seq<Item>, r: seq<Item>, st: ItemStatus)
    requires |r| == |s| && forall k :: 0 <= k < |s| ==> r[k].status == s[k].status
    ensures CountStatus(r, st) == CountStatus(s, st)
  {
    if s != [] {
      StatusesKeepCount(s[..|s| - 1], r[..|r| - 1], st);
    }
  }

  /** A status update on a present id moves that one item between the counts. */
  lemma WithStatusCounts(s: seq<Item>, id: string, st: ItemStatus, message: Option<string>, which: ItemStatus)
    requires IndexOfId(s, id) >= 0
    ensures var p := IndexOfId(s, id);
      CountStatus(WithStatus(s, id, st, message), which) ==
        CountStatus(s, which) - (if s[p].status == which then 1 else 0) + (if st == which then 1 else 0)
  {
    var p := IndexOfId(s, id);
    CountUpdate(s, p, s[p].(status := st, error := ErrorField(message)), which);
  }

  /** Appending fresh Ready items leaves every existing item where its id finds it. */
  lemma AppendKeepsIndex(s: seq<Item>, t: seq<Item>, id: string)
    requires IndexOfId(s, id) >= 0
    ensures IndexOfId(s + t, id) == IndexOfId(s, id)
  {
    var p := IndexOfId(s, id);
    assert (s + t)[p] == s[p];
  }

  /**
   * Why the scheduling loop needs unique ids: when an earlier record shares
   * the first Ready item's id, marking that item by id changes the earlier
   * record instead, so the same item is Ready first again.
   */
  lemma DuplicateIdRepicks(s: seq<Item>, j: nat, st: ItemStatus, message: Option<string>)
    requires FirstReady(s) >= 0 && j < FirstReady(s) && s[j].id == s[FirstReady(s)].id
    requires st != Ready
    ensures NextReady(WithStatus(s, s[FirstReady(s)].id, st, message)) == Some(s[FirstReady(s)])
  {
    var p := FirstReady(s);
    var r := WithStatus(s, s[p].id, st, message);
    var q := IndexOfId(s, s[p].id);
    assert q <= j;
    forall k | 0 <= k < p
      ensures r[k].status != Ready
    {
      if k != q {
        assert r[k] == s[k];
      }
    }
    FirstReadyAt(r, p);
  }

  /** A Ready position with nothing Ready before it is the first Ready position. */
  lemma FirstReadyAt(r: seq<Item>, p: nat)
    requires p < |r| && r[p].status == Ready && forall k :: 0 <= k < p ==> r[k].status != Ready
    ensures FirstReady(r) == p
  {
  }


  /** Removing the first match from a queue with unique ids leaves no item with that id. */
  lemma RemoveUnique(s: seq<Item>, id: string)
    requires UniqueIds(s)
    ensures UniqueIds(RemoveFirst(s, id).rest)
    ensures IndexOfId(RemoveFirst(s, id).rest, id) == -1
  {
    var r := RemoveFirst(s, id).rest;
    var p := IndexOfId(s, id);
    if p >= 0 {
      forall k | 0 <= k < |r|
        ensures r[k].id != id
      {
        var k' := if k < p then k else k + 1;
        assert r[k] == s[k'] && k' != p;
      }
    }
  }
}
