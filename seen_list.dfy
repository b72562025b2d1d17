/** The processed-tweets ledger as it is written to processed_tweets.json: only the
    most recent MaxSaved identifiers are kept, oldest evicted first. */
module SeenList {

  const MaxSaved: nat := 1000

  /** What save_processed_tweets writes for the in-memory list `ids`
      (the `[-1000:]` slice, taken only when the list is longer than 1000). */
  function Persisted<T>(ids: seq<T>): (r: seq<T>)
    ensures |ids| <= MaxSaved ==> r == ids
    ensures |ids| > MaxSaved ==> |r| == MaxSaved
    ensures r == ids[|ids| - |r|..]
  {
    if |ids| > MaxSaved then ids[|ids| - MaxSaved..] else ids
  }

  /** Saving is insensitive to an earlier trim: reloading a saved ledger, appending
      further ids and saving again writes the same file as saving the untrimmed list.
      This is why the producers may keep an untrimmed list in memory. */
  lemma PersistAfterReload<T>(earlier: seq<T>, appended: seq<T>)
    ensures Persisted(Persisted(earlier) + appended) == Persisted(earlier + appended)
  {
    var p := Persisted(earlier);
    var whole := earlier + appended;
    var d := |earlier| - |p|;
    assert p + appended == whole[d..];
    if |whole| > MaxSaved {
      assert |p + appended| >= MaxSaved;
      assert (p + appended)[|p + appended| - MaxSaved..] == whole[|whole| - MaxSaved..];
    }
  }
}
