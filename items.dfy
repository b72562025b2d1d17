/** The reply queue shared by the producers and the reply worker (reply_queue, a
    queue.Queue of dicts in the source). */
module Items {
  import opened Common

  type TweetId = int
  type UserId = int

  /** One reply_queue entry. Times are integer seconds; createdAt is None when the
      tweet carried no created_at. */
  datatype QueueItem = QueueItem(
    tweetId: TweetId,
    userId: UserId,
    text: string,
    createdAt: Option<int>,
    delayMinutes: int,
    isReplyToUs: bool)

  /** A first-in first-out queue of reply candidates. */
  class ReplyQueue {
    var items: seq<QueueItem>

    constructor ()
      ensures items == []
    {
      items := [];
    }

    /** queue.put: append at the tail. */
    method Put(item: QueueItem)
      modifies this
      ensures items == old(items) + [item]
    {
      items := items + [item];
    }

    /** queue.get on a non-empty queue: remove and return the head. */
    method Get() returns (item: QueueItem)
      requires items != []
      modifies this
      ensures item == old(items)[0]
      ensures items == old(items)[1..]
    {
      item := items[0];
      items := items[1..];
    }
  }
}
