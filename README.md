# Twitter monitor and token refresher, modelled in Dafny

This project models the core of a Twitter engagement agent:

- Three producers (mentions, hashtags, keywords) turn fetched tweets into entries of a shared reply queue. Each producer keeps its own list of processed tweet ids and saves at most the last 1000 of them.
- A reply worker takes entries off the queue. It defers entries whose reply delay has not elapsed, generates a reply through a language-model prompt, posts it, and re-queues only rate-limited replies.
- A rate governor spaces the platform calls it governs at least two seconds apart. The spacing holds for calls made one after another; the four threads share `last_api_call` without a lock (twitter_monitor.py:117-127), so calls from different threads can come closer.
- A token refresher decides when the bearer token must be refreshed. It turns the token endpoint's answer into a new token record and writes that record back into `config.json` field by field.

The model is split by concern:

- **Operations that change state step by step are classes.** These are `Producers.Producer`, `Items.ReplyQueue`, `KeywordRotation.CategoryRotation`, `RateLimit.RateGovernor` and `TokenRefresher.ConfigStore`. Their methods are proved against specification functions.
- **Decisions and string handling are functions with lemmas.** Examples are the processed-list truncation, the search queries, the prompt assembly, the reply extraction, the expiry check and the response mapping.

Remote calls, file contents, clock readings and random choices are parameters:

- fetched tweets and their lookups;
- the outcome of posting;
- the completion returned by the language model, and how its content parsed as JSON;
- the token endpoint's status and body;
- the config file's contents;
- integer-second clock readings;
- the chosen category index.

Category rotation works differently from how the code's own comments describe it. The comments at twitter_monitor.py:344 and :363 say the categories are tracked to rotate through them, resetting once all have been used. In the code, `used_categories` is only bookkeeping: `random.choice` at twitter_monitor.py:104 never consults it, so a category can repeat at any time. The model follows the code. `KeywordRotation` proves what the bookkeeping keeps, and the choice is a free parameter.

Files:

| file | models |
|---|---|
| `common.dfy` | `Option`, duplicate-freedom |
| `text.dfy` | `str.find`, `str.join`, splitting on a character |
| `seen_list.dfy` | `save_processed_tweets` truncation |
| `monitor_queries.dfy` | `get_hashtag_query`, `get_keyword_query` |
| `keyword_rotation.dfy` | the `used_categories` bookkeeping of `monitor_keywords` |
| `items.dfy` | queue entries and the FIFO reply queue |
| `producers.dfy` | the per-batch loop of `monitor_mentions`, `monitor_hashtags`, `monitor_keywords` |
| `rate_limit.dfy` | `respect_rate_limit` and the retry parameters |
| `reply_worker.dfy` | one pass of `reply_worker` |
| `ai_reply.dfy` | `generate_reply` |
| `tokens.dfy` | `load_tokens`, `save_tokens`, `refresh_access_token`, `check_token_expiry` |

## Model

| member | source | states |
|---|---|---|
| SeenList.Persisted | twitter_monitor.py:63-74 | A list of at most 1000 ids is saved unchanged. A longer list is saved as exactly 1000 ids. These are its last 1000, in their original order. |
| SeenList.PersistAfterReload | twitter_monitor.py:66-68 | Appending to the reloaded, truncated list and saving gives the same file as appending to the full list and saving. Truncation loses nothing a later save would have kept. |
| Producers.Producer.constructor | twitter_monitor.py:50-61 | The producer starts from the stored processed list, or from the empty list when there is none. |
| Producers.MentionReplyStatus | twitter_monitor.py:205-218 | A failed lookup of the mention abandons it. A mention without "replied_to" references is not a reply to us. "Reply to us" means some replied-to parent was written by our account; "not a reply to us" means every replied-to parent was fetched and written by someone else. |
| Producers.CheckReplyToUs | twitter_monitor.py:205-218 | The loop over referenced tweets returns "abandoned" when a lookup raises. Otherwise it returns whether some "replied_to" parent was written by our account. This is proved against a quantified specification. |
| Producers.NewQueueItem | twitter_monitor.py:221-228 | A queue entry copies id, author, text and created_at from the tweet. A mention gets delay 0 and its reply-to-us status, and no entry when its lookups raise. A hashtag or keyword tweet (lines 303-310, 393-400) gets the configured delay and is never a reply to us. |
| Producers.Producer.ProcessBatch | twitter_monitor.py:289-313 | The loop over a fetched batch leaves the processed list and the shared queue equal to the batch specification applied to the old list. Entries are appended to the queue after what was there. |
| Producers.BatchPrefix | twitter_monitor.py:192-234 | Processing a prefix of a batch yields prefixes of the final processed list and of the queued entries. |
| Producers.ConfiguredDelay | twitter_monitor.py:263 | The search producers use the configured reply_delay_minutes, and 60 when it is not set (also line 342). |
| Producers.Step | twitter_monitor.py:192-234 | One tweet of a batch: an already processed tweet, or a mention whose lookups raised, changes nothing. Otherwise its id is appended to the processed list. Its entry is appended to the queue unless we wrote it. Nothing else changes. |
| Producers.Batch | twitter_monitor.py:192-234 | Processing a batch front to back only extends the processed list and the queue. |
| Producers.BatchAppendsFreshIds | twitter_monitor.py:194-196 | An id that is already processed is never appended again. Every appended id was absent from the list at the time. |
| Producers.BatchKeepsLedgerDistinct | twitter_monitor.py:379-403 | A processed list without duplicates stays without duplicates. |
| Producers.BatchMarksOnlyBatchTweets | twitter_monitor.py:194-202 | Every appended id belongs to a tweet of the batch that is ours or that was queued. |
| Producers.BatchMarksEveryMarkedTweet | twitter_monitor.py:291-313 | Every tweet of the batch that is ours or gets queued ends up in the processed list. |
| Producers.BatchQueuesOnlyNewTweets | twitter_monitor.py:381-403 | Each queued entry: was built from a batch tweet, was not previously processed, is not ours, and is now in the processed list. Queued ids are pairwise distinct, so an id repeated in one batch is queued at most once. |
| Producers.BatchQueuesEveryNewTweet | twitter_monitor.py:221-231 | The first occurrence of an unprocessed tweet that is not ours, and whose lookups succeed, is queued. |
| Producers.Producer.SaveProcessedTweets | twitter_monitor.py:236-237 | The saved file receives the truncation of the producer's processed list. The list itself is unchanged. |
| MonitorQueries.HashtagQuery | twitter_monitor.py:86-90 | A query exists exactly when the monitoring section lists hashtags. A missing key raises. |
| MonitorQueries.HashtagQueryLayout | twitter_monitor.py:90 | Each hashtag sits at its offset in the query. Every hashtag but the last is followed by " OR ". |
| MonitorQueries.KeywordQuery | twitter_monitor.py:92-115 | No categories yields ("", ""). Otherwise the name is the chosen category's, and the query ends with " lang:en". |
| MonitorQueries.KeywordQueryLayout | twitter_monitor.py:110-113 | Each keyword of the chosen category appears wrapped in double quotes at its offset. It is followed by " OR " or, for the last keyword, by the language filter. |
| KeywordRotation.TrackCategory | twitter_monitor.py:360-365 | The chosen category is in the result. A known category changes nothing, and a new one is appended or starts a fresh list. Duplicate-freedom is kept. With at least two categories, the length stays below the category count. |
| KeywordRotation.CategoryRotation.constructor | twitter_monitor.py:344-345 | Rotation starts with no used categories. |
| KeywordRotation.CategoryRotation.Track | twitter_monitor.py:360-365 | The update keeps the rotation invariant and leaves the list equal to `TrackCategory` of the old list. |
| RateLimit.SleepTime | twitter_monitor.py:117-125 | The sleep is positive exactly when less than two seconds have passed. It then lasts exactly until two seconds after the last call, and never ends earlier. |
| RateLimit.RateGovernor.constructor | twitter_monitor.py:33-34 | The last-call clock starts at 0. |
| RateLimit.RateGovernor.RespectRateLimit | twitter_monitor.py:117-127 | The governor sleeps `SleepTime` and records the clock reading after the sleep. Under a monotone clock that reading is at least two seconds after the previous one. |
| RateLimit.RunSpacing | twitter_monitor.py:117-127 | Over n governed calls with a monotone clock, the recorded clock advances by at least 2n seconds. |
| Items.ReplyQueue.constructor | twitter_monitor.py:27 | The reply queue starts empty. |
| Items.ReplyQueue.Put | twitter_monitor.py:464 | `put` appends at the tail. |
| Items.ReplyQueue.Get | twitter_monitor.py:444 | `get` removes and returns the head. |
| ReplyWorker.NextQueue | twitter_monitor.py:444-508 | After a pass the rest of the queue keeps its order. The head item is put back at the tail exactly when it is not yet due, or when it is rate-limited and not a reply to us; otherwise it is removed. The multiset of entries is unchanged, or loses exactly that one item. |
| ReplyWorker.ReplyWorkerStep | twitter_monitor.py:443-512 | One pass on a non-empty queue leaves the queue equal to `NextQueue`. An item that is not yet due is deferred without a reply. Any other item is attempted with the reply `generate_reply` gives for its text. |
| ReplyWorker.DueStaysDue | twitter_monitor.py:457-461 | An item that was due stays due at every later time. |
| ReplyWorker.UndelayedIsDue | twitter_monitor.py:448-451 | An item with delay 0 (every mention) or without a creation time is never deferred. The pass removes it unless posting is rate-limited and it is not a reply to us. |
| ReplyWorker.DeferralsRotate | twitter_monitor.py:460-467 | k passes over items that are not yet due move the first k items, in order, behind the rest. Nothing is posted or lost. |
| ReplyWorker.DeferredRoundRestoresQueue | twitter_monitor.py:460-467 | A full round of deferrals restores the queue exactly, so the queue length is preserved. |
| ReplyWorker.NextQueueAsWritten | twitter_monitor.py:448-458 | As written, an item with a delay and a creation time is taken off the queue and never put back, so an item that is not yet due is lost. Every other item gets the intended pass. |
| ReplyWorker.AsWrittenLosesDelayedItem | twitter_monitor.py:448-458 | Counterexample: a delayed item taken before it is due is dropped as written, but put back by the intended pass. |
| AiReply.TweetInstructions | ai_utils.py:96-97 | On a copy of the instructions, index 1 becomes "User's Tweet: " + tweet and every other instruction is unchanged. |
| AiReply.BuildPrompt | ai_utils.py:93-98 | A prompt exists exactly when there are at least two instructions. It starts with the task and a newline. |
| AiReply.PromptLines | ai_utils.py:98 | When no part contains a newline, splitting the prompt on newlines gives back the task followed by the updated instructions. |
| AiReply.PromptCarriesTweet | ai_utils.py:97-98 | The labelled tweet occurs in the prompt at the offset of the second instruction line. |
| AiReply.ExtractReplyAsWritten | ai_utils.py:122-131 | Content without both braces, or without `"reply":`, is returned unchanged. Otherwise, with start the first marker position plus 9: when no quote follows start the content is returned unchanged; when one does, the result is exactly the slice from start up to that first quote. |
| AiReply.ExtractReply | ai_utils.py:122-131 | The corrected extraction: the same unchanged cases. Otherwise, when a quote follows the marker and another follows that one, the result is exactly the text strictly between them; when either is missing the content is returned unchanged. |
| AiReply.ReplyBodyExtraction | ai_utils.py:122-129 | On content with both braces whose first `"reply":` is followed by spaces and a quoted text, the corrected extraction returns the quoted text. The offset 9 returns that text only when no space follows the colon; otherwise it returns the spaces after the first one. |
| AiReply.SpacedReplyIsLost | ai_utils.py:126 | On `Reply: {"reply": "Hi"}` the source's offset gives "" where "Hi" is intended. |
| AiReply.SpacedReplyIsKept | ai_utils.py:124-129 | On `Reply: {"reply": "Hi"}` the corrected extraction gives "Hi". |
| AiReply.ReplyFromContent | ai_utils.py:115-131 | Uses the corrected extraction. No answer exactly when the parsed JSON is not an object. A parsed "reply" value is returned as it is. A parse failure or a missing key gives the corrected extraction from the raw content. |
| AiReply.ReplyFromContentAsWritten | ai_utils.py:115-131 | The same, with the source's offset-9 extraction on a parse failure or a missing key. |
| AiReply.Answer | ai_utils.py:93-112 | The completion's content and its parse are obtained exactly when the template exists, has at least two instructions, and the call returned content. |
| AiReply.GenerateReply | ai_utils.py:89-135 | Uses the corrected extraction. A missing template, fewer than two instructions, a failed call, absent content, or parsed JSON that is not an object all give the fixed fallback reply. Otherwise the result is exactly `ReplyFromContent` of the content and its parse. |
| AiReply.GenerateReplyAsWritten | ai_utils.py:89-135 | The source's generate_reply: the same fallback cases, otherwise exactly `ReplyFromContentAsWritten` of the content and its parse. |
| AiReply.GenerateReplyDiffersOnlyInSlice | ai_utils.py:118-129 | The corrected and the as-written generate_reply agree on every input except a parse failure or a missing key, where they return the corrected and the as-written extraction of the same content. |
| AiReply.GeneratedSpacedReplyIsLost | ai_utils.py:116-129 | With a usable template, a completion `Reply: {"reply": "Hi"}` that fails to parse makes the source's generate_reply return "" and the corrected one "Hi". |
| Text.Find | ai_utils.py:124-127 | `str.find` returns -1 or the first occurrence at or after the start, with no occurrence before it. |
| Text.FindChar | ai_utils.py:127 | `str.find` for one character returns -1 or the first index at or after the start holding it, with no such index before it. |
| Text.FindCharIsFind | ai_utils.py:127 | The one-character search agrees with `str.find` of the one-character string at every start. |
| TokenRefresher.LoadTokens | token_refresher.py:22-43 | A record exists exactly when the file holds the token object. It has the five in-memory keys, each read from its stored key or None when missing. |
| TokenRefresher.Written | token_refresher.py:56-61 | Only the stored keys whose in-memory key is present are written. |
| TokenRefresher.Updated | token_refresher.py:55-61 | The present keys among bearer_token, refresh_token and expires_at are written under access_bearer_token, access_refersh_bearer_token and token_expires_at. Every other field is untouched, and no other field appears. |
| TokenRefresher.SavedFile | token_refresher.py:45-68 | A missing file starts from an empty token object. An unreadable file, or one without a token object, is unchanged. Otherwise only the token object changes, and every other top-level entry is kept. |
| TokenRefresher.ConfigStore.SaveTokens | token_refresher.py:45-68 | The field-by-field update leaves the file equal to `SavedFile` of the old file. |
| TokenRefresher.SaveThenLoad | token_refresher.py:28-34 | Loading after saving returns each saved field under its own name. The other loaded fields are as before, or None for a file that was missing. |
| TokenRefresher.LoadedAfterUpdate | token_refresher.py:56-61 | Reading the stored keys of an updated record: written keys give the new values, and the rest give the old ones. |
| TokenRefresher.IntOf | token_refresher.py:132 | `int()` of a stored expiry keeps integers, reads a non-empty decimal-digit string as its decimal value, and fails only on None and other strings. |
| TokenRefresher.Digits | token_refresher.py:132 | The decimal spelling of a number is a non-empty digit string without a leading zero. |
| TokenRefresher.DecimalOfDigits | token_refresher.py:132 | Reading the decimal spelling of n gives back n. |
| TokenRefresher.DigitsOfDecimal | token_refresher.py:132 | A digit string without a leading zero is the spelling of its value, so the reading is one-to-one on such strings. |
| TokenRefresher.NeedsRefresh | token_refresher.py:118-140 | No record, or a missing or falsy expiry, needs a refresh. An integer expiry, or a digit string read as its decimal value, needs one exactly when at most 300 seconds are left. The check fails only on a non-numeric expiry string. |
| TokenRefresher.CheckTokenExpiry | token_refresher.py:118-128 | A file without a token object always needs a refresh. |
| TokenRefresher.ExpiresIn | token_refresher.py:95-96 | A missing expires_in is 7200. An integer is kept. None or a string makes the addition fail. |
| TokenRefresher.TokensFromResponse | token_refresher.py:70-116 | None exactly when: the refresh token is falsy, the call fails, the status is not 200, the body is not a JSON object, or expires_in cannot be added. Otherwise the record has the three keys: access_token as bearer, expires_at = now + expires_in, and the body's refresh token or else the old one. |
| TokenRefresher.ConfigStore.RefreshAccessToken | token_refresher.py:70-116 | Returns `TokensFromResponse`. On failure the file is untouched; on success it is `SavedFile` of the old file and the new record. |
| TokenRefresher.RefreshThenCheck | token_refresher.py:94-103 | After a successful refresh at time now, the expiry check at a later time reports a refresh as due exactly from now + expires_in − 300 on. |

## Left out

- **Threads and scheduling.** The daemon threads, their infinite loops, sleeps, cooldowns and the `random.uniform` jitter are not modelled. Each producer batch and each worker pass is modelled as one sequential step. No lock guards `last_api_call`, so there is no atomic governor to model.
- **Remote calls and file I/O.** These are inputs to the model: the Twitter client, the language-model call, the HTTP token request and JSON file reads. Their outcomes are parameters (`Candidate`, `PostOutcome`, `Completion`, `TokenResponse`, `ConfigFile`). `json.dump` formatting is not modelled.
- **Retry decorator.** The tenacity `twitter_retry` decorator is recorded only as constants (rate-limit errors, 3 attempts, waits clamped to 4..60 seconds). With tenacity's default `reraise=False`, the error that finally surfaces after the retries is a `RetryError` rather than `TooManyRequests`. The worker model takes the post outcome as a parameter and does not decide which one arrives.
- **Float clocks.** Time is integer seconds, and `time.time()` fractions are not modelled.
- **Category choice.** `random.choice` is an index parameter of `KeywordQuery`.
- **Per-thread copies of the processed list.** Each producer loads its own copy. All three write the same file, and races on that file are not modelled.
- **get_user_id.** Its failure, and the outer handler that abandons the rest of a batch, are not modelled.
- **A missing "keywords" key.** This raises at twitter_monitor.py:364 after `get_keyword_query` returned ("", ""). The model takes the category count as given.
- **Empty reply queue.** The check at twitter_monitor.py:438 is never true for a `queue.Queue`, so `get` blocks. The model starts a pass only on a non-empty queue.
- **Checks with no shown effect.** The token expiry check before each producer batch and each worker pass is not part of the modelled steps. Client refreshing (`get_refreshed_clients`) is not part of this model.
- **String created_at values.** The worker's conversion of string `created_at` values is not modelled. Times are already integers.
- **Non-string "reply" values.** A parsed "reply" that is not a string is not modelled. The model's parsed reply is always a string.
- **NeedsRefresh:** reads a stored `expires_at` string as a number only when it is all ASCII digits. Python's `int()` also accepts surrounding whitespace, a sign and digit-group underscores; the model reports those as a failed conversion. Floats are not modelled.
- **main of token_refresher.py.** Its argument parsing and the `--force` flag are not modelled. Neither are the client id and secret, which are only passed to the HTTP request.
- **GenerateReply:** uses the corrected extraction `ExtractReply`, not the source's offset-9 slice. The source's behaviour is `GenerateReplyAsWritten`; `GenerateReplyDiffersOnlyInSlice` proves the two differ only in that slice.
- **ReplyFromContent:** uses the corrected extraction `ExtractReply`. The source's behaviour is `ReplyFromContentAsWritten`.
- **ReplyWorkerStep:** its reply is the corrected `GenerateReply`, and its pass is the intended `NextQueue` rather than the as-written `NextQueueAsWritten` (see Findings). It also takes the post outcome as given, so a rate-limited post reaches the re-queue branch; with the retry wrapper's default the error that surfaces is a `RetryError`, which the generic handler at twitter_monitor.py:504-505 catches, and the item is then dropped.
- **Producers.Producer.SaveProcessedTweets:** always writes the file. In the source a failed write is logged and swallowed (twitter_monitor.py:73-74), leaving the file as it was.
- **TokenRefresher.ConfigStore.SaveTokens:** always writes the file. In the source a failed read or write is logged and swallowed (token_refresher.py:67-68).
- **Other scripts.** `twitter_agent.py`, the posting and scheduling scripts and the test scripts are not part of this model.

## Findings

| source | as written | input that shows it | evidently intended | confidence | as-written member | corrected member |
|---|---|---|---|---|---|---|
| twitter_monitor.py:458 | `datetime` is the module (line 7), so `datetime.now` (and `datetime.fromisoformat` at line 454) raises AttributeError. The handler at line 517 catches it after `get` has already removed the item. | A hashtag or keyword item with `delay_minutes` 60 and `created_at` 0, taken at time 600 | The item is put back at the tail until created_at + delay has passed | high, not executed | ReplyWorker.NextQueueAsWritten (ReplyWorker.AsWrittenLosesDelayedItem) | ReplyWorker.NextQueue |
| ai_utils.py:126 | The offset 9 assumes `"reply": "` is 9 characters, but it is 10. With a space after the colon the slice starts at the opening quote and ends at it. | `Reply: {"reply": "Hi"}` yields "" | The text between the quotes, "Hi" | high, not executed | AiReply.ExtractReplyAsWritten (AiReply.SpacedReplyIsLost, AiReply.ReplyBodyExtraction, AiReply.GenerateReplyAsWritten, AiReply.GeneratedSpacedReplyIsLost) | AiReply.ExtractReply (AiReply.SpacedReplyIsKept, AiReply.ReplyBodyExtraction, AiReply.GenerateReply) |
