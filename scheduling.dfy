/**
 * What one pass of the orchestrator's scheduling loop does to the queue
 * (Uploader.startUpload, uploadItem, readyUploadItem, error and
 * errorUploadItem, src/Uploader.ts). The loop takes the first Ready item,
 * marks it Uploading, and either hands it to the transfer client or, when
 * its local path does not exist, marks it Error and takes the next one;
 * with no Ready item left the batch is finished.
 */
module Scheduling {
  import opened Wrappers
  import opened Types
  import opened FileItems
  import opened QueueSpec

  /** The message recorded for an item whose local path does not exist. */
  const NotFoundSuffix := " 不存在!"

  function NotFoundMessage(localPath: string): (m: string)
    ensures |m| > |localPath| && m[..|localPath|] == localPath
  {
    localPath + NotFoundSuffix
  }

  /**
   * The queue after a pass, and the item handed to the transfer client
   * (as nextReadyItem copied it), or None when the batch is finished.
   */
  datatype Launch = Launch(contents: seq<Item>, picked: Option<Item>)

  /** The first Ready item, marked Uploading and then failed with `message`. */
  lemma FailFirstReady(s: seq<Item>, message: string)
    requires UniqueIds(s) && FirstReady(s) >= 0 && message != ""
    ensures var p := FirstReady(s); var id := s[p].id;
      && WithStatus(s, id, Uploading, None) == s[p := s[p].(status := Uploading, error := None)]
      && WithStatus(WithStatus(s, id, Uploading, None), id, Error, Some(message))
         == s[p := s[p].(status := Error, error := Some(message))]
      && CountStatus(s[p := s[p].(status := Error, error := Some(message))], Ready) == CountStatus(s, Ready) - 1
  {
    var p := FirstReady(s);
    var s1 := WithStatus(s, s[p].id, Uploading, None);
    UniqueIndex(s, p);
    UniqueIndex(s1, p);
    CountUpdate(s, p, s[p].(status := Error, error := Some(message)), Ready);
  }

  function Drain(s: seq<Item>, existing: set<string>): (r: Launch)
    requires UniqueIds(s)
    ensures SameShape(s, r.contents) && UniqueIds(r.contents)
    decreases CountStatus(s, Ready)
  {
    var p := FirstReady(s);
    if p == -1 then Launch(s, None)
    else
      var item := s[p];
      var marked := WithStatus(s, item.id, Uploading, None);
      if item.localPath in existing then Launch(marked, Some(item))
      else
        FailFirstReady(s, NotFoundMessage(item.localPath));
        Drain(WithStatus(marked, item.id, Error, Some(NotFoundMessage(item.localPath))), existing)
  }

  /** The pass starts exactly with the item nextReadyItem returns. */
  lemma DrainStartsWithNextReady(s: seq<Item>, existing: set<string>)
    requires UniqueIds(s)
    ensures NextReady(s).None? ==> Drain(s, existing) == Launch(s, None)
    ensures NextReady(s).Some? && NextReady(s).value.localPath in existing ==>
      Drain(s, existing).picked == NextReady(s)
  {
  }

  /** The item the pass fails when the first Ready item's local path is missing. */
  /** An item after the not-found error: Error with the message, everything else kept. */
  function Failed(item: Item): (r: Item)
    ensures r.status == Error && r.error == ErrorField(Some(NotFoundMessage(item.localPath)))
    ensures FixedPart(r) == FixedPart(item) && r.transferred == item.transferred
  {
    item.(status := Error, error := Some(NotFoundMessage(item.localPath)))
  }

  /** One step of the pass, written with positions instead of ids. */
  lemma DrainUnfold(s: seq<Item>, existing: set<string>)
    requires UniqueIds(s) && FirstReady(s) >= 0
    ensures var p := FirstReady(s);
      && (s[p].localPath in existing ==>
            Drain(s, existing) == Launch(s[p := s[p].(status := Uploading, error := None)], Some(s[p])))
      && (s[p].localPath !in existing ==>
            && UniqueIds(s[p := Failed(s[p])])
            && CountStatus(s[p := Failed(s[p])], Ready) < CountStatus(s, Ready)
            && Drain(s, existing) == Drain(s[p := Failed(s[p])], existing))
  {
    var p := FirstReady(s);
    FailFirstReady(s, NotFoundMessage(s[p].localPath));
  }

  /** A pass changes only items that were Ready. */
  lemma {:induction false} DrainKeepsSettled(s: seq<Item>, existing: set<string>)
    requires UniqueIds(s)
    ensures var r := Drain(s, existing);
      forall k :: 0 <= k < |s| && s[k].status != Ready ==> r.contents[k] == s[k]
    decreases CountStatus(s, Ready)
  {
    var p := FirstReady(s);
    if p >= 0 {
      DrainUnfold(s, existing);
      if s[p].localPath !in existing {
        var s2 := s[p := Failed(s[p])];
        DrainKeepsSettled(s2, existing);
        SettledAfterFailure(s, p, Drain(s2, existing).contents);
      }
    }
  }

  /** Failing a Ready item leaves the settled items to the rest of the pass, which keeps them. */
  lemma SettledAfterFailure(s: seq<Item>, p: nat, c: seq<Item>)
    requires p < |s| && s[p].status == Ready && |c| == |s|
    requires var s2 := s[p := Failed(s[p])];
      forall k :: 0 <= k < |s2| && s2[k].status != Ready ==> c[k] == s2[k]
    ensures forall k :: 0 <= k < |s| && s[k].status != Ready ==> c[k] == s[k]
  {
    var s2 := s[p := Failed(s[p])];
    forall k | 0 <= k < |s| && s[k].status != Ready
      ensures c[k] == s[k]
    {
      assert s2[k] == s[k];
    }
  }

  /** A pass that hands nothing on leaves no Ready item and no new Uploading one. */
  lemma {:induction false} DrainFinishes(s: seq<Item>, existing: set<string>)
    requires UniqueIds(s)
    ensures var r := Drain(s, existing);
      r.picked.None? ==>
        && CountStatus(r.contents, Ready) == 0
        && CountStatus(r.contents, Uploading) == CountStatus(s, Uploading)
    decreases CountStatus(s, Ready)
  {
    var p := FirstReady(s);
    if p == -1 {
      CountZero(s, Ready);
    } else {
      DrainUnfold(s, existing);
      if s[p].localPath !in existing {
        DrainFinishes(s[p := Failed(s[p])], existing);
        CountUpdate(s, p, Failed(s[p]), Uploading);
      }
    }
  }

  /**
   * The item a pass hands on was Ready, has an existing local path, and its
   * stored record is now marked Uploading.
   */
  lemma {:induction false} DrainPicks(s: seq<Item>, existing: set<string>)
    requires UniqueIds(s)
    ensures var r := Drain(s, existing);
      r.picked.Some? ==>
        var q := IndexOfId(s, r.picked.value.id);
        && q >= 0 && s[q] == r.picked.value && s[q].status == Ready
        && s[q].localPath in existing
        && r.contents[q] == s[q].(status := Uploading, error := None)
    decreases CountStatus(s, Ready)
  {
    var p := FirstReady(s);
    if p >= 0 {
      DrainUnfold(s, existing);
      if s[p].localPath in existing {
        UniqueIndex(s, p);
      } else {
        var s2 := s[p := Failed(s[p])];
        DrainPicks(s2, existing);
        PickSurvivesFailure(s, p, Drain(s2, existing), existing);
      }
    }
  }

  /** What a later step of the pass hands on was already in the queue before the failed item was marked. */
  lemma PickSurvivesFailure(s: seq<Item>, p: nat, r: Launch, existing: set<string>)
    requires p < |s| && s[p].status == Ready && |r.contents| == |s|
    requires var s2 := s[p := Failed(s[p])];
      r.picked.Some? ==>
        var q := IndexOfId(s2, r.picked.value.id);
        && q >= 0 && s2[q] == r.picked.value && s2[q].status == Ready
        && s2[q].localPath in existing
        && r.contents[q] == s2[q].(status := Uploading, error := None)
    ensures r.picked.Some? ==>
        var q := IndexOfId(s, r.picked.value.id);
        && q >= 0 && s[q] == r.picked.value && s[q].status == Ready
        && s[q].localPath in existing
        && r.contents[q] == s[q].(status := Uploading, error := None)
  {
    var s2 := s[p := Failed(s[p])];
    if r.picked.Some? {
      var id := r.picked.value.id;
      assert SameShape(s, s2);
      ShapeKeepsIndex(s, s2, id);
    }
  }

  /** After a pass that hands an item on, there is one more Uploading item than before. */
  lemma {:induction false} DrainPickCount(s: seq<Item>, existing: set<string>)
    requires UniqueIds(s)
    ensures var r := Drain(s, existing);
      r.picked.Some? ==> CountStatus(r.contents, Uploading) == CountStatus(s, Uploading) + 1
    decreases CountStatus(s, Ready)
  {
    var p := FirstReady(s);
    if p >= 0 {
      DrainUnfold(s, existing);
      if s[p].localPath in existing {
        CountUpdate(s, p, s[p].(status := Uploading, error := None), Uploading);
      } else {
        DrainPickCount(s[p := Failed(s[p])], existing);
        CountUpdate(s, p, Failed(s[p]), Uploading);
      }
    }
  }

  /**
   * Every item a pass changes, other than the one it hands on, had a missing
   * local path and ends in Error with the not-found message.
   */
  lemma {:induction false} DrainFailsMissing(s: seq<Item>, existing: set<string>)
    requires UniqueIds(s)
    ensures var r := Drain(s, existing);
      forall k ::
        (0 <= k < |s| && s[k].status == Ready && r.contents[k].status != Ready &&
         (r.picked.None? || r.picked.value.id != s[k].id)) ==>
        (s[k].localPath !in existing && r.contents[k] == Failed(s[k]))
    decreases CountStatus(s, Ready)
  {
    var p := FirstReady(s);
    if p >= 0 {
      DrainUnfold(s, existing);
      var r := Drain(s, existing);
      if s[p].localPath !in existing {
        var s2 := s[p := Failed(s[p])];
        DrainFailsMissing(s2, existing);
        DrainKeepsSettled(s2, existing);
        forall k | 0 <= k < |s| && s[k].status == Ready && r.contents[k].status != Ready &&
            (r.picked.None? || r.picked.value.id != s[k].id)
          ensures s[k].localPath !in existing && r.contents[k] == Failed(s[k])
        {
          if k != p {
            assert s2[k] == s[k];
          }
        }
      }
    }
  }

  /**
   * Items are taken in insertion order: while an earlier Ready item is still
   * Ready after the pass, no later item has been touched.
   */
  lemma {:induction false} DrainInOrder(s: seq<Item>, existing: set<string>)
    requires UniqueIds(s)
    ensures var r := Drain(s, existing);
      forall j, k :: 0 <= j < k < |s| && s[j].status == Ready && r.contents[j].status == Ready ==>
        r.contents[k] == s[k]
    decreases CountStatus(s, Ready)
  {
    var p := FirstReady(s);
    if p >= 0 {
      DrainUnfold(s, existing);
      if s[p].localPath in existing {
        InOrderAfterPick(s, p, Drain(s, existing).contents);
      } else {
        var s2 := s[p := Failed(s[p])];
        DrainInOrder(s2, existing);
        DrainKeepsSettled(s2, existing);
        InOrderAfterFailure(s, p, Drain(s2, existing).contents);
      }
    }
  }

  /** The pass stops at the item it hands on: nothing after that item has been touched. */
  lemma {:induction false} DrainStopsAtPick(s: seq<Item>, existing: set<string>)
    requires UniqueIds(s)
    ensures KeepsPastPick(s, Drain(s, existing))
    decreases CountStatus(s, Ready)
  {
    var p := FirstReady(s);
    if p >= 0 {
      if s[p].localPath in existing {
        PickedAt(s, existing);
        StopsAtOwnPick(s, p);
      } else {
        FailedAt(s, existing);
        DrainStopsAtPick(s[p := Failed(s[p])], existing);
        StopsPastFailure(s, p, existing);
      }
    }
  }

  /** `r` leaves every item after the one it picked as it was in `s`. */
  ghost predicate KeepsPastPick(s: seq<Item>, r: Launch)
  {
    && |r.contents| == |s|
    && (r.picked.Some? ==> forall k :: IndexOfId(s, r.picked.value.id) < k < |s| ==> r.contents[k] == s[k])
  }

  /** The pass when the first Ready item exists locally: that item is handed on. */
  lemma PickedAt(s: seq<Item>, existing: set<string>)
    requires UniqueIds(s) && FirstReady(s) >= 0 && s[FirstReady(s)].localPath in existing
    ensures var p := FirstReady(s);
      Drain(s, existing) == Launch(s[p := s[p].(status := Uploading, error := None)], Some(s[p]))
  {
    DrainUnfold(s, existing);
  }

  /** The pass when the first Ready item is missing: it is failed and the pass goes on. */
  lemma FailedAt(s: seq<Item>, existing: set<string>)
    requires UniqueIds(s) && FirstReady(s) >= 0 && s[FirstReady(s)].localPath !in existing
    ensures var p := FirstReady(s); var s2 := s[p := Failed(s[p])];
      && UniqueIds(s2) && CountStatus(s2, Ready) < CountStatus(s, Ready)
      && Drain(s, existing) == Drain(s2, existing)
  {
    DrainUnfold(s, existing);
  }

  /** Handing on the item at `p` touches nothing after it. */
  lemma StopsAtOwnPick(s: seq<Item>, p: nat)
    requires UniqueIds(s) && p < |s|
    ensures KeepsPastPick(s, Launch(s[p := s[p].(status := Uploading, error := None)], Some(s[p])))
  {
    UniqueIndex(s, p);
  }

  /** Failing the item at `p` first does not move the point past which a later pick keeps things. */
  lemma StopsPastFailure(s: seq<Item>, p: nat, existing: set<string>)
    requires p < |s| && s[p].status == Ready && forall k :: 0 <= k < p ==> s[k].status != Ready
    requires UniqueIds(s[p := Failed(s[p])])
    requires KeepsPastPick(s[p := Failed(s[p])], Drain(s[p := Failed(s[p])], existing))
    ensures KeepsPastPick(s, Drain(s[p := Failed(s[p])], existing))
  {
    var s2 := s[p := Failed(s[p])];
    var r2 := Drain(s2, existing);
    if r2.picked.Some? {
      DrainPicks(s2, existing);
      ShapeKeepsIndex(s, s2, r2.picked.value.id);
      StopsAfterFailure(s, p, IndexOfId(s2, r2.picked.value.id), r2.contents);
    }
  }

  lemma StopsAfterFailure(s: seq<Item>, p: nat, q: nat, c: seq<Item>)
    requires p < |s| && s[p].status == Ready && forall k :: 0 <= k < p ==> s[k].status != Ready
    requires var s2 := s[p := Failed(s[p])];
      q < |s2| && s2[q].status == Ready && |c| == |s| && forall k :: q < k < |s| ==> c[k] == s2[k]
    ensures forall k :: q < k < |s| ==> c[k] == s[k]
  {
    var s2 := s[p := Failed(s[p])];
    assert q != p && s[q] == s2[q];
    forall k | q < k < |s|
      ensures c[k] == s[k]
    {
      assert s2[k] == s[k];
    }
  }

  /** The step that hands on the first Ready item touches nothing after it. */
  lemma InOrderAfterPick(s: seq<Item>, p: nat, c: seq<Item>)
    requires p < |s| && s[p].status == Ready && forall k :: 0 <= k < p ==> s[k].status != Ready
    requires c == s[p := s[p].(status := Uploading, error := None)]
    ensures forall j, k :: 0 <= j < k < |s| && s[j].status == Ready && c[j].status == Ready ==> c[k] == s[k]
  {
  }

  /** The step that fails the first Ready item keeps the order the rest of the pass keeps. */
  lemma InOrderAfterFailure(s: seq<Item>, p: nat, c: seq<Item>)
    requires p < |s| && s[p].status == Ready && forall k :: 0 <= k < p ==> s[k].status != Ready
    requires var s2 := s[p := Failed(s[p])];
      && |c| == |s|
      && (forall k :: 0 <= k < |s2| && s2[k].status != Ready ==> c[k] == s2[k])
      && (forall j, k :: 0 <= j < k < |s2| && s2[j].status == Ready && c[j].status == Ready ==> c[k] == s2[k])
    ensures forall j, k :: 0 <= j < k < |s| && s[j].status == Ready && c[j].status == Ready ==> c[k] == s[k]
  {
    var s2 := s[p := Failed(s[p])];
    forall j, k | 0 <= j < k < |s| && s[j].status == Ready && c[j].status == Ready
      ensures c[k] == s[k]
    {
      assert p < j && s2[j] == s[j] && s2[k] == s[k];
    }
  }
}
