/** One pass of reply_worker: take the head of the reply queue, put it back at the tail
    when its delay has not elapsed, otherwise generate a reply and post it, and re-queue
    it only when posting a reply that is not to our own tweet hits the rate limit. */
module ReplyWorker {
  import opened Common
  import opened Items
  import AiReply

  /** What create_tweet did: posted, raised TooManyRequests, raised Forbidden, or raised
      anything else. */
  datatype PostOutcome = Posted | RateLimited | Forbidden | OtherError

  /** What one pass did with the head item. */
  datatype WorkerAction =
    | Deferred(item: QueueItem)
    | Attempted(item: QueueItem, reply: string, outcome: PostOutcome)

  const SecondsPerMinute := 60

  /** The item carries a delay, a creation time, and `now` is before created_at plus
      the delay. */
  predicate NotYetDue(item: QueueItem, now: int) {
    && item.delayMinutes > 0
    && item.createdAt.Some?
    && now < item.createdAt.value + item.delayMinutes * SecondsPerMinute
  }

  /** The TooManyRequests handler is the only one that puts the item back, and it is
      reached only for items that are not replies to our own tweets. */
  predicate Requeues(item: QueueItem, outcome: PostOutcome) {
    !item.isReplyToUs && outcome == RateLimited
  }

  /** The pass removes the head item for good. */
  predicate Drops(item: QueueItem, now: int, outcome: PostOutcome) {
    !NotYetDue(item, now) && !Requeues(item, outcome)
  }

  /** The queue after one pass: the rest of the queue keeps its order, and the head item
      is either put back at the tail or removed, never duplicated. */
  function NextQueue(items: seq<QueueItem>, now: int, outcome: PostOutcome): (r: seq<QueueItem>)
    requires |items| > 0
    ensures |r| == if Drops(items[0], now, outcome) then |items| - 1 else |items|
    ensures r[..|items| - 1] == items[1..]
    ensures !Drops(items[0], now, outcome) ==> r[|items| - 1] == items[0]
    ensures multiset(r) ==
      if Drops(items[0], now, outcome) then multiset(items) - multiset{items[0]} else multiset(items)
  {
    assert items == [items[0]] + items[1..];
    if Drops(items[0], now, outcome) then items[1..] else items[1..] + [items[0]]
  }

  /** One pass of the worker loop on a non-empty queue. The content generator's inputs
      are passed along so that the reply text is the modelled generate_reply. */
  method ReplyWorkerStep(q: ReplyQueue, now: int, template: Option<AiReply.ReplyPrompt>,
                         completion: AiReply.Completion, outcome: PostOutcome)
    returns (action: WorkerAction)
    requires q.items != []
    modifies q
    ensures q.items == NextQueue(old(q.items), now, outcome)
    ensures NotYetDue(old(q.items)[0], now) ==> action == Deferred(old(q.items)[0])
    ensures !NotYetDue(old(q.items)[0], now) ==>
      action == Attempted(old(q.items)[0], AiReply.GenerateReply(template, old(q.items)[0].text, completion), outcome)
  {
    var item := q.Get();
    if item.delayMinutes > 0 && item.createdAt.Some? {
      var replyAfter := item.createdAt.value + item.delayMinutes * SecondsPerMinute;
      if now < replyAfter {
        q.Put(item);
        return Deferred(item);
      }
    }
    var reply := AiReply.GenerateReply(template, item.text, completion);
    if !item.isReplyToUs && outcome == RateLimited {
      q.Put(item);
    }
    action := Attempted(item, reply, outcome);
  }

  /** Once created_at plus the delay has passed, the item is never deferred again. */
  lemma DueStaysDue(item: QueueItem, now: int, later: int)
    requires !NotYetDue(item, now) && now <= later
    ensures !NotYetDue(item, later)
  {
  }

  /** An item queued without a delay (every mention) or without a creation time is
      never deferred: it is taken for a reply on the pass that finds it at the head. */
  lemma UndelayedIsDue(item: QueueItem, now: int)
    requires item.delayMinutes <= 0 || item.createdAt.None?
    ensures !NotYetDue(item, now)
    ensures forall outcome :: Drops(item, now, outcome) <==> !Requeues(item, outcome)
  {
  }

  /** The queue after a run of passes at the given clock readings. */
  function Run(items: seq<QueueItem>, nows: seq<int>, outcome: PostOutcome): seq<QueueItem>
    decreases |nows|
  {
    if |nows| == 0 || |items| == 0 then items
    else Run(NextQueue(items, nows[0], outcome), nows[1..], outcome)
  }

  /** Passes over items that are not yet due rotate the queue: after k such passes the
      first k items sit, in order, behind the others; nothing is posted or lost. */
  lemma {:induction false} DeferralsRotate(items: seq<QueueItem>, nows: seq<int>, outcome: PostOutcome)
    requires |nows| <= |items|
    requires forall i :: 0 <= i < |nows| ==> NotYetDue(items[i], nows[i])
    ensures Run(items, nows, outcome) == items[|nows|..] + items[..|nows|]
    decreases |nows|
  {
    if |nows| == 0 {
      assert items[..0] == [] && items[0..] == items;
    } else {
      var next := NextQueue(items, nows[0], outcome);
      RotatedHeadsStillWaiting(items, nows, outcome);
      DeferralsRotate(next, nows[1..], outcome);
      RotationSplice(items, |nows| - 1);
    }
  }

  /** After one deferral the remaining heads are the next items, still not due. */
  lemma RotatedHeadsStillWaiting(items: seq<QueueItem>, nows: seq<int>, outcome: PostOutcome)
    requires 0 < |nows| <= |items|
    requires forall i :: 0 <= i < |nows| ==> NotYetDue(items[i], nows[i])
    ensures NextQueue(items, nows[0], outcome) == items[1..] + [items[0]]
    ensures forall i :: 0 <= i < |nows| - 1 ==> NotYetDue(NextQueue(items, nows[0], outcome)[i], nows[1..][i])
  {
    var next := NextQueue(items, nows[0], outcome);
    forall i | 0 <= i < |nows| - 1 ensures NotYetDue(next[i], nows[1..][i]) {
      assert next[i] == items[i + 1];
      assert nows[1..][i] == nows[i + 1];
    }
  }

  /** Rotating by one and then by k is rotating by k + 1. */
  lemma RotationSplice(items: seq<QueueItem>, k: nat)
    requires k < |items|
    ensures (items[1..] + [items[0]])[k..] + (items[1..] + [items[0]])[..k] == items[k + 1..] + items[..k + 1]
  {
    var next := items[1..] + [items[0]];
    assert next[k..] == items[k + 1..] + [items[0]];
    assert next[..k] == items[1..k + 1];
    assert items[..k + 1] == [items[0]] + items[1..k + 1];
  }

  /** A full round of passes over a queue of items none of which is due leaves the
      queue exactly as it was. */
  lemma DeferredRoundRestoresQueue(items: seq<QueueItem>, nows: seq<int>, outcome: PostOutcome)
    requires |nows| == |items|
    requires forall i :: 0 <= i < |nows| ==> NotYetDue(items[i], nows[i])
    ensures Run(items, nows, outcome) == items
  {
    DeferralsRotate(items, nows, outcome);
    assert items[|nows|..] == [] && items[..|nows|] == items;
  }

  /** The pass exactly as written: line 458 calls now() on the datetime module, which
      raises AttributeError for every item with a delay and a creation time; the handler
      at line 517 then discards the item, which has already been taken off the queue. */
  function NextQueueAsWritten(items: seq<QueueItem>, now: int, outcome: PostOutcome): (r: seq<QueueItem>)
    requires |items| > 0
    ensures items[0].delayMinutes > 0 && items[0].createdAt.Some? ==> r == items[1..]
    ensures !(items[0].delayMinutes > 0 && items[0].createdAt.Some?) ==> r == NextQueue(items, now, outcome)
    ensures items[0] !in items[1..] && NotYetDue(items[0], now) ==> items[0] !in r
  {
    if items[0].delayMinutes > 0 && items[0].createdAt.Some? then items[1..]
    else NextQueue(items, now, outcome)
  }

  /** The input that shows it: a hashtag item queued with the default 60-minute delay
      and taken ten minutes after it was created is lost as written, where the intended
      pass puts it back. */
  lemma AsWrittenLosesDelayedItem()
    ensures var item := QueueItem(42, 7, "hi", Some(0), 60, false);
      && NextQueueAsWritten([item], 600, Posted) == []
      && NextQueue([item], 600, Posted) == [item]
  {
  }

  /** The delayed-reply scenario: an item due an hour after creation is put back when
      taken ten minutes in, and is gone after a successful post 61 minutes in. */
  method DelayedReplyScenario() {
    var q := new ReplyQueue();
    var item := QueueItem(42, 7, "hi", Some(0), 60, false);
    q.Put(item);
    var a := ReplyWorkerStep(q, 600, None, AiReply.CallFailed, Posted);
    assert a == Deferred(item) && q.items == [item];
    a := ReplyWorkerStep(q, 3660, None, AiReply.CallFailed, Posted);
    assert a.Attempted? && a.reply == AiReply.FallbackReply && q.items == [];
  }
}
