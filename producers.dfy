/** The per-batch body shared by monitor_mentions, monitor_hashtags and
    monitor_keywords: for each fetched tweet, skip it when already processed, mark it
    processed without queueing it when we wrote it, and otherwise queue it and mark it
    processed. Remote lookups arrive as values. */
module Producers {
  import opened Common
  import opened Items
  import SeenList

  /** A fetched tweet: id, author_id, text, created_at (seconds, None when absent). */
  datatype Tweet = Tweet(id: TweetId, authorId: UserId, text: string, createdAt: Option<int>)

  /** What fetching a replied-to parent tweet gave: its author, or an exception. */
  datatype ParentLookup = ParentLookupFailed | ParentFound(authorId: UserId)

  /** One entry of referenced_tweets, with the outcome of fetching its parent
      (the parent is fetched only for "replied_to" entries). */
  datatype ReferencedTweet = ReferencedTweet(kind: string, parent: ParentLookup)

  /** What fetching the full mention gave: an exception, or its referenced tweets
      (an absent referenced_tweets is the empty sequence). */
  datatype TweetLookup = LookupFailed | LookupOk(references: seq<ReferencedTweet>)

  /** A batch element: the tweet, and what the mentions producer's lookups of it return.
      The hashtag and keyword producers perform no lookups and ignore `lookup`. */
  datatype Candidate = Candidate(tweet: Tweet, lookup: TweetLookup)

  /** Which producer runs the batch; the search producers carry the configured
      reply_delay_minutes. */
  datatype Source = Mentions | Hashtags(delayMinutes: int) | Keywords(delayMinutes: int)

  /** reply_delay_minutes when the monitoring section does not set it. */
  const DefaultReplyDelayMinutes := 60

  /** config.get("reply_delay_minutes", 60): the configured delay, or the default. */
  function ConfiguredDelay(setting: Option<int>): (r: int)
    ensures setting.Some? ==> r == setting.value
    ensures setting.None? ==> r == DefaultReplyDelayMinutes
  {
    setting.GetOr(DefaultReplyDelayMinutes)
  }

  const RepliedTo := "replied_to"

  /** Specification of the mention check: None when a lookup raises (the mention is
      then abandoned), otherwise whether some replied-to parent was written by userId. */
  function MentionReplyStatus(lookup: TweetLookup, userId: UserId): (r: Option<bool>)
    ensures lookup.LookupFailed? ==> r.None?
    ensures lookup.LookupOk? && (forall i :: 0 <= i < |lookup.references| ==> lookup.references[i].kind != RepliedTo) ==>
      r == Some(false)
    ensures r == Some(true) ==>
      && lookup.LookupOk?
      && exists i :: 0 <= i < |lookup.references| && lookup.references[i].kind == RepliedTo &&
           lookup.references[i].parent == ParentFound(userId)
    ensures r == Some(false) ==>
      && lookup.LookupOk?
      && forall i :: 0 <= i < |lookup.references| && lookup.references[i].kind == RepliedTo ==>
           lookup.references[i].parent.ParentFound? && lookup.references[i].parent.authorId != userId
  {
    match lookup
    case LookupFailed => None
    case LookupOk(refs) =>
      if exists i :: 0 <= i < |refs| && refs[i].kind == RepliedTo && refs[i].parent.ParentLookupFailed?
      then None
      else Some(exists i :: 0 <= i < |refs| && refs[i].kind == RepliedTo && refs[i].parent == ParentFound(userId))
  }

  /** The loop over referenced_tweets in monitor_mentions. */
  method CheckReplyToUs(lookup: TweetLookup, userId: UserId) returns (status: Option<bool>)
    ensures status == MentionReplyStatus(lookup, userId)
  {
    if lookup.LookupFailed? {
      return None;
    }
    var refs := lookup.references;
    var isReplyToUs := false;
    var i := 0;
    while i < |refs|
      invariant 0 <= i <= |refs|
      invariant forall j :: 0 <= j < i ==> !(refs[j].kind == RepliedTo && refs[j].parent.ParentLookupFailed?)
      invariant isReplyToUs <==>
        exists j :: 0 <= j < i && refs[j].kind == RepliedTo && refs[j].parent == ParentFound(userId)
    {
      if refs[i].kind == RepliedTo {
        match refs[i].parent
        case ParentLookupFailed =>
          return None;
        case ParentFound(author) =>
          if author == userId {
            isReplyToUs := true;
          }
      }
      i := i + 1;
    }
    return Some(isReplyToUs);
  }

  /** The queue entry a producer builds for an unseen tweet not written by us, or None
      when the mention lookups raised. */
  function NewQueueItem(source: Source, ourId: UserId, c: Candidate): (r: Option<QueueItem>)
    ensures r.Some? ==> r.value.tweetId == c.tweet.id && r.value.userId == c.tweet.authorId
    ensures r.Some? ==> r.value.text == c.tweet.text && r.value.createdAt == c.tweet.createdAt
    ensures source.Mentions? ==> r.Some? == MentionReplyStatus(c.lookup, ourId).Some?
    ensures source.Mentions? && r.Some? ==>
      r.value.delayMinutes == 0 && r.value.isReplyToUs == MentionReplyStatus(c.lookup, ourId).value
    ensures !source.Mentions? ==>
      r.Some? && r.value.delayMinutes == source.delayMinutes && !r.value.isReplyToUs
  {
    var t := c.tweet;
    match source
    case Mentions =>
      (match MentionReplyStatus(c.lookup, ourId)
       case None => None
       case Some(b) => Some(QueueItem(t.id, t.authorId, t.text, t.createdAt, 0, b)))
    case Hashtags(d) => Some(QueueItem(t.id, t.authorId, t.text, t.createdAt, d, false))
    case Keywords(d) => Some(QueueItem(t.id, t.authorId, t.text, t.createdAt, d, false))
  }

  /** The batch step marks a tweet as processed: it is ours, or it gets queued. */
  predicate Marked(source: Source, ourId: UserId, c: Candidate) {
    c.tweet.authorId == ourId || NewQueueItem(source, ourId, c).Some?
  }

  /** The producer's processed list and the entries it has queued so far. */
  datatype BatchState = BatchState(seen: seq<TweetId>, enqueued: seq<QueueItem>)

  /** One tweet of a batch: a processed tweet changes nothing; otherwise a tweet the
      step marks is appended to the ledger, and its entry to the queue unless it is
      ours; an unmarked tweet (its lookups raised) changes nothing. */
  function Step(source: Source, ourId: UserId, st: BatchState, c: Candidate): (r: BatchState)
    ensures st.seen <= r.seen && st.enqueued <= r.enqueued
    ensures c.tweet.id in st.seen || !Marked(source, ourId, c) ==> r == st
    ensures c.tweet.id !in st.seen && Marked(source, ourId, c) ==> r.seen == st.seen + [c.tweet.id]
    ensures c.tweet.id !in st.seen && c.tweet.authorId == ourId ==> r.enqueued == st.enqueued
    ensures c.tweet.id !in st.seen && c.tweet.authorId != ourId && Marked(source, ourId, c) ==>
      r.enqueued == st.enqueued + [NewQueueItem(source, ourId, c).value]
  {
    if c.tweet.id in st.seen then st
    else if c.tweet.authorId == ourId then BatchState(st.seen + [c.tweet.id], st.enqueued)
    else
      match NewQueueItem(source, ourId, c)
      case None => st
      case Some(item) => BatchState(st.seen + [c.tweet.id], st.enqueued + [item])
  }

  /** A whole batch, processed front to back. */
  function Batch(source: Source, ourId: UserId, st: BatchState, cs: seq<Candidate>): (r: BatchState)
    ensures st.seen <= r.seen && st.enqueued <= r.enqueued
    decreases |cs|
  {
    if |cs| == 0 then st
    else Step(source, ourId, Batch(source, ourId, st, cs[..|cs| - 1]), cs[|cs| - 1])
  }

  /** Processing a prefix of the batch yields a prefix of the final ledger and queue. */
  lemma {:induction false} BatchPrefix(source: Source, ourId: UserId, st: BatchState, cs: seq<Candidate>, n: nat)
    requires n <= |cs|
    ensures Batch(source, ourId, st, cs[..n]).seen <= Batch(source, ourId, st, cs).seen
    ensures Batch(source, ourId, st, cs[..n]).enqueued <= Batch(source, ourId, st, cs).enqueued
    decreases |cs|
  {
    if n < |cs| {
      var front := cs[..|cs| - 1];
      assert front[..n] == cs[..n];
      BatchPrefix(source, ourId, st, front, n);
    } else {
      assert cs[..n] == cs;
    }
  }

  /** Every id a batch appends was absent from the ledger when it was appended: ids
      already processed are never re-appended and the ledger gains no duplicates. */
  lemma {:induction false} BatchAppendsFreshIds(source: Source, ourId: UserId, st: BatchState, cs: seq<Candidate>)
    ensures forall k :: |st.seen| <= k < |Batch(source, ourId, st, cs).seen| ==>
      Batch(source, ourId, st, cs).seen[k] !in Batch(source, ourId, st, cs).seen[..k]
    decreases |cs|
  {
    if |cs| > 0 {
      var front := cs[..|cs| - 1];
      BatchAppendsFreshIds(source, ourId, st, front);
      var mid := Batch(source, ourId, st, front);
      var r := Batch(source, ourId, st, cs);
      assert r == Step(source, ourId, mid, cs[|cs| - 1]);
      forall k | |st.seen| <= k < |r.seen|
        ensures r.seen[k] !in r.seen[..k]
      {
        if k < |mid.seen| {
          assert r.seen[k] == mid.seen[k] && r.seen[..k] == mid.seen[..k];
          assert mid.seen[k] !in mid.seen[..k];
        } else {
          var c := cs[|cs| - 1];
          assert c.tweet.id !in mid.seen;
          assert r.seen == mid.seen + [c.tweet.id];
          assert r.seen[..k] == mid.seen;
          assert r.seen[k] == c.tweet.id;
        }
      }
    }
  }

  lemma BatchKeepsLedgerDistinct(source: Source, ourId: UserId, st: BatchState, cs: seq<Candidate>)
    requires NoDuplicates(st.seen)
    ensures NoDuplicates(Batch(source, ourId, st, cs).seen)
  {
    var r := Batch(source, ourId, st, cs);
    BatchAppendsFreshIds(source, ourId, st, cs);
    forall i, j | 0 <= i < j < |r.seen|
      ensures r.seen[i] != r.seen[j]
    {
      if j >= |st.seen| {
        assert r.seen[i] in r.seen[..j];
      } else {
        assert r.seen[i] == st.seen[i] && r.seen[j] == st.seen[j];
      }
    }
  }

  /** Some tweet of the batch with this id is one the step marks. */
  predicate MarkedIn(source: Source, ourId: UserId, cs: seq<Candidate>, id: TweetId) {
    exists j :: 0 <= j < |cs| && cs[j].tweet.id == id && Marked(source, ourId, cs[j])
  }

  /** A marked tweet of the front of a batch, or its marked last tweet, is a marked
      tweet of the batch. */
  lemma MarkedInBatch(source: Source, ourId: UserId, cs: seq<Candidate>, id: TweetId)
    requires |cs| > 0
    requires || MarkedIn(source, ourId, cs[..|cs| - 1], id)
             || (cs[|cs| - 1].tweet.id == id && Marked(source, ourId, cs[|cs| - 1]))
    ensures MarkedIn(source, ourId, cs, id)
  {
    if MarkedIn(source, ourId, cs[..|cs| - 1], id) {
      var j :| 0 <= j < |cs| - 1 && cs[..|cs| - 1][j].tweet.id == id && Marked(source, ourId, cs[..|cs| - 1][j]);
      assert cs[j] == cs[..|cs| - 1][j];
    } else {
      assert cs[|cs| - 1].tweet.id == id && Marked(source, ourId, cs[|cs| - 1]);
    }
  }

  /** Every id a batch appends belongs to a tweet of the batch that the step marks. */
  lemma {:induction false} BatchMarksOnlyBatchTweets(source: Source, ourId: UserId, st: BatchState, cs: seq<Candidate>)
    ensures forall k :: |st.seen| <= k < |Batch(source, ourId, st, cs).seen| ==>
      MarkedIn(source, ourId, cs, Batch(source, ourId, st, cs).seen[k])
    decreases |cs|
  {
    if |cs| > 0 {
      var front := cs[..|cs| - 1];
      BatchMarksOnlyBatchTweets(source, ourId, st, front);
      var mid := Batch(source, ourId, st, front);
      var r := Batch(source, ourId, st, cs);
      var c := cs[|cs| - 1];
      assert r == Step(source, ourId, mid, c);
      forall k | |st.seen| <= k < |r.seen|
        ensures MarkedIn(source, ourId, cs, r.seen[k])
      {
        if k < |mid.seen| {
          assert r.seen[k] == mid.seen[k];
        }
        MarkedInBatch(source, ourId, cs, r.seen[k]);
      }
    }
  }

  /** Every tweet of the batch that the step marks ends up in the ledger. */
  lemma {:induction false} BatchMarksEveryMarkedTweet(source: Source, ourId: UserId, st: BatchState, cs: seq<Candidate>)
    ensures forall j :: 0 <= j < |cs| && Marked(source, ourId, cs[j]) ==>
      cs[j].tweet.id in Batch(source, ourId, st, cs).seen
    decreases |cs|
  {
    if |cs| > 0 {
      var front := cs[..|cs| - 1];
      BatchMarksEveryMarkedTweet(source, ourId, st, front);
      var mid := Batch(source, ourId, st, front);
      var r := Batch(source, ourId, st, cs);
      assert mid.seen <= r.seen;
      forall j | 0 <= j < |cs| && Marked(source, ourId, cs[j])
        ensures cs[j].tweet.id in r.seen
      {
        if j < |front| {
          assert front[j] == cs[j];
        }
      }
    }
  }

  /** Some tweet of the batch yields this queue entry. */
  predicate QueuedFrom(source: Source, ourId: UserId, cs: seq<Candidate>, item: QueueItem) {
    exists j :: 0 <= j < |cs| && NewQueueItem(source, ourId, cs[j]) == Some(item)
  }

  /** Facts about the entries a batch queues: each was built from a tweet of the batch,
      none was written by us, each id was absent from the ledger before the batch and is
      in it after, and no id is queued twice, even when it occurs twice in the batch. */
  predicate QueuesOnlyNew(source: Source, ourId: UserId, st: BatchState, cs: seq<Candidate>, r: BatchState) {
    && (forall m :: |st.enqueued| <= m < |r.enqueued| ==>
          && r.enqueued[m].userId != ourId
          && r.enqueued[m].tweetId !in st.seen
          && r.enqueued[m].tweetId in r.seen
          && QueuedFrom(source, ourId, cs, r.enqueued[m]))
    && (forall m, n :: |st.enqueued| <= m < n < |r.enqueued| ==> r.enqueued[m].tweetId != r.enqueued[n].tweetId)
  }

  lemma {:induction false} BatchQueuesOnlyNewTweets(source: Source, ourId: UserId, st: BatchState, cs: seq<Candidate>)
    ensures QueuesOnlyNew(source, ourId, st, cs, Batch(source, ourId, st, cs))
    decreases |cs|
  {
    if |cs| > 0 {
      var front := cs[..|cs| - 1];
      var c := cs[|cs| - 1];
      BatchQueuesOnlyNewTweets(source, ourId, st, front);
      var mid := Batch(source, ourId, st, front);
      var r := Batch(source, ourId, st, cs);
      assert r == Step(source, ourId, mid, c);
      forall m | |st.enqueued| <= m < |r.enqueued|
        ensures QueuedFrom(source, ourId, cs, r.enqueued[m])
      {
        if m < |mid.enqueued| {
          assert r.enqueued[m] == mid.enqueued[m];
          assert QueuedFrom(source, ourId, front, mid.enqueued[m]);
          var j :| 0 <= j < |front| && NewQueueItem(source, ourId, front[j]) == Some(mid.enqueued[m]);
          assert cs[j] == front[j];
        } else {
          assert NewQueueItem(source, ourId, cs[|cs| - 1]) == Some(r.enqueued[m]);
        }
      }
      if |r.enqueued| > |mid.enqueued| {
        assert c.tweet.id !in mid.seen;
        assert c.tweet.id !in st.seen;
      }
    }
  }

  /** A tweet that is new to the ledger, not ours, whose lookups succeed and whose id
      occurs nowhere earlier in the batch is queued. */
  lemma BatchQueuesEveryNewTweet(source: Source, ourId: UserId, st: BatchState, cs: seq<Candidate>, j: nat)
    requires j < |cs|
    requires cs[j].tweet.id !in st.seen && cs[j].tweet.authorId != ourId
    requires NewQueueItem(source, ourId, cs[j]).Some?
    requires forall k :: 0 <= k < j ==> cs[k].tweet.id != cs[j].tweet.id
    ensures NewQueueItem(source, ourId, cs[j]).value in Batch(source, ourId, st, cs).enqueued
  {
    var before := Batch(source, ourId, st, cs[..j]);
    BatchMarksOnlyBatchTweets(source, ourId, st, cs[..j]);
    forall k | 0 <= k < |before.seen|
      ensures before.seen[k] != cs[j].tweet.id
    {
      if k < |st.seen| {
        assert before.seen[k] == st.seen[k];
      } else {
        assert MarkedIn(source, ourId, cs[..j], before.seen[k]);
        var i :| 0 <= i < j && cs[..j][i].tweet.id == before.seen[k] && Marked(source, ourId, cs[..j][i]);
        assert cs[..j][i] == cs[i];
      }
    }
    assert cs[..j + 1][..j] == cs[..j];
    var after := Batch(source, ourId, st, cs[..j + 1]);
    assert after == Step(source, ourId, before, cs[j]);
    BatchPrefix(source, ourId, st, cs, j + 1);
  }

  /** One producer thread's state: its own processed_tweets list, and the ledger file
      as it last wrote it. */
  class Producer {
    var seen: seq<TweetId>
    var saved: seq<TweetId>

    /** load_processed_tweets: the stored list, or [] when the file is missing or
        unreadable (None). */
    constructor (stored: Option<seq<TweetId>>)
      ensures seen == stored.GetOr([]) && saved == stored.GetOr([])
    {
      seen := stored.GetOr([]);
      saved := stored.GetOr([]);
    }

    /** The for-loop over one fetched batch, queueing into the shared queue q. */
    method ProcessBatch(q: ReplyQueue, source: Source, ourId: UserId, batch: seq<Candidate>)
      modifies this, q
      ensures seen == Batch(source, ourId, BatchState(old(seen), []), batch).seen
      ensures q.items == old(q.items) + Batch(source, ourId, BatchState(old(seen), []), batch).enqueued
      ensures saved == old(saved)
    {
      ghost var start := BatchState(seen, []);
      ghost var queued := q.items;
      var i := 0;
      while i < |batch|
        invariant 0 <= i <= |batch|
        invariant saved == old(saved)
        invariant seen == Batch(source, ourId, start, batch[..i]).seen
        invariant q.items == queued + Batch(source, ourId, start, batch[..i]).enqueued
      {
        var t := batch[i].tweet;
        assert batch[..i + 1][..i] == batch[..i];
        if t.id in seen {
          // already processed
        } else if t.authorId == ourId {
          seen := seen + [t.id];
        } else {
          var item: Option<QueueItem> := None;
          if source.Mentions? {
            var status := CheckReplyToUs(batch[i].lookup, ourId);
            if status.Some? {
              item := Some(QueueItem(t.id, t.authorId, t.text, t.createdAt, 0, status.value));
            }
          } else {
            item := Some(QueueItem(t.id, t.authorId, t.text, t.createdAt, source.delayMinutes, false));
          }
          if item.Some? {
            q.Put(item.value);
            seen := seen + [t.id];
          }
        }
        i := i + 1;
      }
      assert batch[..|batch|] == batch;
    }

    /** save_processed_tweets: the file receives the most recent MaxSaved ids; the
        in-memory list is left as it is. */
    method SaveProcessedTweets()
      modifies this
      ensures saved == SeenList.Persisted(seen)
      ensures seen == old(seen)
    {
      saved := SeenList.Persisted(seen);
    }
  }
}
