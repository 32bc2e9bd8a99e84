# Verified model of the ax-server core

A Dafny 4.11 model of the parts of the AthleteX backend that hold state or do arithmetic, with
theorems about whole runs. `dafny verify dfyconfig.toml` checks everything.

| file | models |
|---|---|
| `RateLimit.dfy` | the token bucket and the per-address limiter, as values and as the two classes that update them |
| `RateLimitRuns.dfy` | runs of the limiter: eviction, refused requests, the history rule, the rate bound |
| `RateLimitLimits.dfy` | the exact cleanup interval that hides eviction; what the retry headers are worth |
| `RateLimitTiers.dfy` | tier switches and bursts in plain numbers, the reset header, which buckets the table holds |
| `Products.dfy`, `Swap.dfy` | the constant-product formula, runs of swaps on a pool, order splitting, slippage |
| `SiweMessage.dfy`, `SiweLabels.dfy` | the EIP-4361 message (EIP-4361, "ABNF Message Format"): printer, parser, round trip |
| `SiweNonces.dfy`, `SiweRuns.dfy` | the nonce store, the order of checks in `verify_siwe`, runs of sign-ins |
| `Ingest.dfy` | the swap ingest worker and its deduplicated table |
| `Events.dfy`, `EventRuns.dfy` | the WebSocket channel manager, the poller switch, every interleaving of handlers |
| `EventHistory.dfy` | table, subscriptions and broadcasts read off the events alone |
| `EventTasks.dfy`, `EventRest.dfy` | how many polling tasks there can be; no run gets stuck |
| `Spot.dfy`, `Subgraph.dfy` | the two cursor paginators |
| `Options.dfy`, `Text.dfy` | an optional value; substrings and upper case |

Each object the source updates in place is a class here, and each of its methods is proved to
compute a function on values; the theorems are about those functions. Clock reads, random
nonces, network answers, signature recovery and token verification are parameters.

## What the model shows

* **Limiter.** An address's *level* (the tokens it would have now, evicted or not) is all that
  matters. With a cleanup interval of at least the 10 s refill period eviction never shows in any
  run, and below it some run shows it: the bound is exact. Decisions are those of a rule that scans
  the request history since the last tier change. Retry-After always suffices; the millisecond reset
  header falls short by truncation unless the reset time is a whole number of milliseconds, and a
  run shows it. The remaining count is exact at its moment. A token of another tier buys a burst of
  exactly 100, 500 or 2000 requests, and so does an idle time of 10 s in the tier in force.
* **Swaps.** The quote, and what a fill really pays, is the largest fair payout; splitting never
  helps; the product never falls; a slippage setting absorbs any run of other swaps, in both
  directions, whose net inflow b satisfies 20000·b ≤ bps·(reserve + b).
* **Sign-in.** Whatever the text, an attempt signs in if and only if the text parses and nonce,
  expiry, domain, chain and signer fit, and a refusal names the first that does not. Printing then
  parsing gives the fields back if and only if they are `Faithful`, a test on the fields alone.
  Label-free fields always are, where a label is taken without its trailing blank: a domain ending
  in its first "Expiration Time:" has no complete expiry label, but the greeting after it completes
  one and is read as the expiry. A nonce signs in at most once.
* **Ingest.** Over a well-fed run (distinct ids, no late arrivals, at most 200 swaps above the mark
  at each answer) of succeeding, failing and half-written polls, a final success leaves the table of
  one bulk ingest. With distinct ids alone no run gives a swap two rows; if times are positive too,
  the table is complete up to the mark if and only if each poll that moved the mark covered the
  swaps up to it. A swap missed then is lost for good: a tie of two swaps in one second is enough.
  The mark is exactly the latest time of a written answer, so the same answer again changes nothing.
* **Events.** In every interleaving a broadcast has one turn for each client registered when it
  began, and sends exactly if the client's commands up to that turn ask for it. A client leaves the
  table only by its own departure or after a failed send to it. Every run can be continued to rest.
  The table is empty and the poller off once no handler serves. A cancelled task counts until it
  ends. At most one uncancelled polling task exists at every moment exactly if no registration finds
  the table emptied by dropped clients while the poller runs; at most one unfinished task exactly
  if, besides, none finds it empty while a handler still waits for the task it cancelled. Both can
  fail. Once every handler is gone, no cancelled task is left.
* **Pages.** A walk over spot markets returns the ids up to the first unreachable one, which gives
  the exact condition for completeness. The pair loop terminates and misses no initial pair.

Where code and comments differ the code is followed: the eviction threshold is the configured
interval, not 60 s (`app/middleware/rate_limit.py:131`), and `X-RateLimit-Reset` is cut to whole
milliseconds.

## Model

| member | source | states |
|---|---|---|
| Swap.Optimal | app/chain/uniswap_v2.py:130-135 | for positive reserves an integer payout keeps the fee-adjusted product exactly if it is at most the computed amount |
| Swap.Monotone | app/chain/uniswap_v2.py:130-135 | more input, a smaller input reserve or a larger output reserve never lowers the payout |
| Swap.FillGrowsK | app/chain/uniswap_v2.py:130-135 | one swap raises the reserve product strictly, or changes nothing if the input is zero |
| Swap.QuoteExactly | app/chain/uniswap_v2.py:130-135 | on a live pool a payout is fair exactly if it is at most the quote |
| Swap.FillPaysExactly | app/chain/uniswap_v2.py:130-135 | a fill pays the largest fair payout out of one reserve and puts the whole input into the other |
| Swap.KNeverFalls | app/chain/uniswap_v2.py:130-135 | over any run in both directions the product never falls and is unchanged exactly if every input was zero |
| Swap.NoRunGainsBoth | app/chain/uniswap_v2.py:130-135 | no run takes one token out without putting the other in; a run back to the same reserves moved nothing |
| Swap.SplittingNeverHelps | app/chain/uniswap_v2.py:114-135 | any split of an order, with all floors and updated reserves, pays at most one order for the sum |
| Swap.PiecesArrive | app/chain/uniswap_v2.py:114-135 | the input reserve grows by exactly the sum of the pieces |
| Swap.ApplySlippage | app/api/v1/predict_orders.py:253-254 | the result is the largest integer at most the amount reduced by the basis points |
| Swap.SlippageAbsorbsFrontRunning | app/api/v1/predict_orders.py:308-309 | after any other run with net inflow b, 20000·b ≤ bps·(reserve + b), the order still pays the minimum from the old quote |
| Swap.SlippageAbsorbsPieces | app/api/v1/predict_orders.py:374-375 | the same for any number of same-direction pieces that sum to b |
| RateLimit.TokenBucket.Consume | app/middleware/rate_limit.py:57-70 | the in-place refill and grant compute the value semantics of the bucket |
| RateLimit.RateLimitMiddleware.CleanupStale | app/middleware/rate_limit.py:130-145 | at most once per interval, exactly the buckets idle longer than the interval are deleted |
| RateLimit.RateLimitMiddleware.UpgradeTier | app/middleware/rate_limit.py:159-181 | a verified token sets the tier and replaces a bucket of another size by a full one |
| RateLimit.RateLimitMiddleware.GetBucket | app/middleware/rate_limit.py:118-128 | a missing bucket is created full in the address's current tier; others are untouched |
| RateLimit.RateLimitMiddleware.Dispatch | app/middleware/rate_limit.py:147-203 | one request is cleanup, upgrade, lookup and one attempt, with the refusal's headers, or the limit and bucket for those attached later |
| RateLimit.RateLimitMiddleware.AttachHeaders | app/middleware/rate_limit.py:207-212 | a forwarded response shows the limit found before and the bucket as it is after the handler ran |
| RateLimitRuns.LevelLater | app/middleware/rate_limit.py:57-65 | levels stay within the capacity and grow at the tier's rate, whether or not the bucket exists |
| RateLimitRuns.CleanupLevels | app/middleware/rate_limit.py:130-145 | eviction never lowers a level and, from a 10 s interval on, changes none |
| RateLimitRuns.StepLevels | app/middleware/rate_limit.py:155-187 | a request is granted exactly if its level is at least one token, pays one token, and touches no other address |
| RateLimitRuns.EvictionInvisible | app/middleware/rate_limit.py:118-145 | with an interval of at least the refill period, every run gets the decisions of a limiter that never deletes |
| RateLimitRuns.RefusedAreFree | app/middleware/rate_limit.py:57-70 | deleting the refused requests from a run changes no other decision and no level |
| RateLimitRuns.MinWindowMeans | app/middleware/rate_limit.py:53-70 | the tightest window reaches one token exactly if every window of the history has room for the request |
| RateLimitRuns.LevelIsMinWindow | app/middleware/rate_limit.py:53-70 | every level is the minimum over the windows of the log since the last tier change |
| RateLimitRuns.DecisionMatchesHistory | app/middleware/rate_limit.py:53-70 | a request is granted exactly when the scan of the whole history since the last tier change allows it, evictions included |
| RateLimitRuns.RateBound | app/middleware/rate_limit.py:57-70 | in any window grants are at most one capacity, plus accrual at the tiers in force, plus one capacity per tier switch |
| RateLimitRuns.RateBoundOneTier | app/middleware/rate_limit.py:57-70 | while the tier is unchanged: at most capacity + rate · length |
| RateLimitLimits.EvictionInvisibleExactly | app/middleware/rate_limit.py:99-109 | eviction is invisible in all runs if and only if the cleanup interval is at least the refill period |
| RateLimitLimits.RetryAdvice | app/middleware/rate_limit.py:187-203 | after a refusal the next request passes exactly after reset_seconds; Retry-After suffices in every tier; the millisecond header exactly if nothing was truncated |
| RateLimitLimits.MillisecondsCanFallShort | app/middleware/rate_limit.py:188 | in every tier a run in which a refused address comes back when the millisecond header says and is refused again |
| RateLimitLimits.RemainingIsExact | app/middleware/rate_limit.py:71-74 | of any further requests of the address at that instant, exactly the remaining count pass |
| RateLimitTiers.TierSwitchExactly | app/middleware/rate_limit.py:159-181 | a verified "BASIC", "ADVANCED" or "MARKET_MAKER" token gives its address that tier and a bucket of 100, 500 or 2000; anything else leaves tier and size alone, and other addresses are untouched |
| RateLimitTiers.FullBurst | app/middleware/rate_limit.py:57-70 | an address that switches tier, is new or has been idle for 10 s gets exactly its tier's number of requests through at one instant |
| RateLimitTiers.UpgradedBurst | app/middleware/rate_limit.py:34-38 | the same for a token that changes the tier, with names and numbers written out |
| RateLimitTiers.ResetIsExact | app/middleware/rate_limit.py:76-81 | after any answer the address's next request passes exactly once the reset time is over, which the header shows rounded down to the millisecond |
| RateLimitTiers.BucketsMatchHistory | app/middleware/rate_limit.py:130-145 | for any interval the table holds a bucket exactly if no cleanup since its last visit found it idle too long |
| SiweMessage.SearchIsLeftmost | app/auth/siwe.py:168-170 | a pattern search finds a match exactly if there is one, and returns the group of the leftmost |
| SiweMessage.PrefixIsLongest | app/auth/siwe.py:168-170 | the group is the longest stretch of allowed characters |
| SiweMessage.AddressIsLeftmost | app/auth/siwe.py:167 | the address search returns the leftmost 0x with 40 hexadecimal digits |
| SiweMessage.ParsesExactly | app/auth/siwe.py:178-196 | which texts parse and which are too short, stated on the text itself |
| SiweMessage.ParsedFields | app/auth/siwe.py:183-216 | for every text that parses, where each field comes from: first greeting, leftmost address, leftmost labels, 137 and no expiry by default |
| SiweMessage.PrintsTemplate | app/auth/siwe.py:88-100 | the printed text is the template filled in |
| SiweMessage.SearchJoin | app/auth/siwe.py:167-170 | a leftmost-match search of a text is the first match among its lines |
| SiweMessage.StripJoin | app/auth/siwe.py:178 | stripping a text with visible first and last lines changes only those two lines |
| SiweMessage.DomainReadBack | app/auth/siwe.py:183-184 | the first line yields the domain exactly if it is non-empty, starts visibly and lacks the greeting |
| SiweMessage.DecimalReadBack | app/auth/siwe.py:199-200 | reading a printed chain id gives the number back, and it is printed without leading zeros |
| SiweMessage.RoundTrip | app/auth/siwe.py:149-216 | parsing a printed message returns the printed fields if and only if the fields are faithful |
| SiweLabels.LabelFreeRoundTrip | app/auth/siwe.py:149-216 | label-free single-line fields with a plain domain always survive the round trip |
| SiweLabels.PlantedNonceWins | app/auth/siwe.py:193-196 | a nonce label inside the statement supplies the nonce that is checked |
| SiweLabels.GreetingBecomesExpiry | app/auth/siwe.py:203-204 | every domain ending in its first "Expiration Time:" makes the greeting the expiration time |
| SiweNonces.NonceStore.Generate | app/auth/siwe.py:51-56 | stores the new nonce unused and leaves no entry older than the TTL at the cleanup's clock read |
| SiweNonces.NonceStore.Validate | app/auth/siwe.py:58-72 | accepts a known unused nonce within the TTL and marks it used; forgets an expired one |
| SiweNonces.VerifySiwe | app/auth/siwe.py:245-290 | the checks in order: parse, nonce (consumed here), expiry, domain, chain, signature, signer |
| SiweRuns.AcceptsMatchesHistory | app/auth/siwe.py:51-79 | a nonce is accepted exactly if it was issued at most the TTL ago and not consumed since, whatever was cleaned up |
| SiweRuns.FreshAccepts | app/auth/siwe.py:51-79 | with fresh nonces: exactly if generated within the TTL and never consumed before |
| SiweRuns.OneSignInPerNonce | app/auth/siwe.py:245-290 | over any run with fresh nonces a nonce signs in at most once, and only if issued |
| SiweRuns.SignInsBounded | app/auth/siwe.py:245-290 | sign-ins with a nonce never exceed how often it was generated |
| SiweRuns.SignInWasIssued | app/auth/siwe.py:249-250 | every sign-in presents a nonce issued within the TTL and not consumed since |
| SiweRuns.FailedAttemptSpendsNonce | app/auth/siwe.py:249-287 | once an attempt is past the nonce check, later attempts with that nonce fail until it is generated again |
| SiweRuns.OutcomeExactly | app/auth/siwe.py:245-290 | for every text: signed in if and only if it parses and the history accepts its nonce, it is in time, domain and chain fit and the signer is the address up to letter case; each refusal is the first of these that fails |
| SiweRuns.PrintedMessageSignsIn | app/auth/siwe.py:117-290 | a faithful printed message signs its signer in if and only if nonce, expiry, domain, chain and signer all fit |
| Ingest.ClassifyMarket | app/services/price_ingest.py:213-226 | the loop's early exits give the market type: prediction words win within a symbol, the first symbol with any word over the second |
| Ingest.LastTradeWins | app/services/questdb_client.py:45 | of the trades of a write with the same key the last one stays |
| Ingest.TradesTable.IngestTrades | app/services/questdb_client.py:205-232 | a write upserts all rows under (ts, market_id, tx_hash), or an arbitrary part of them when it breaks |
| Ingest.PriceIngestWorker.DeriveTrades | app/services/price_ingest.py:165-202 | one trade per swap that moves both tokens, with price, side and amount from its direction and its type from the symbols |
| Ingest.PriceIngestWorker.PollSwaps | app/services/price_ingest.py:150-210 | one poll: filter above the mark, write, and move the mark only after a complete write |
| Ingest.PollStores | app/services/price_ingest.py:157-206 | a poll stores a tradable swap exactly if it is answered, above the mark and reached by the write |
| Ingest.MarkExactly | app/services/price_ingest.py:157-206 | after a complete write of a trade the mark is the latest time of the whole answer, and otherwise it has not moved |
| Ingest.SameAnswerAgain | app/services/price_ingest.py:157-206 | after a complete write the same answer again changes nothing, whatever becomes of the second write |
| Ingest.NothingCutOff | app/services/price_ingest.py:153 | with at most 200 swaps above the mark the newest-200 answer contains them all |
| Ingest.ExactlyOnce | app/services/price_ingest.py:150-210 | after any well-fed run all tradable swaps up to the mark are stored, and after a success exactly those of the feed |
| Ingest.OneRowPerSwap | app/services/questdb_client.py:45 | given distinct ids, in any run at all no two rows carry the same swap id, late swaps, retries and partial writes included |
| Ingest.SameAsBulkIngest | app/services/price_ingest.py:204-206 | the final table equals that of one bulk ingest of the same swaps in any order |
| Ingest.LateSwapIsLost | app/services/price_ingest.py:157-160 | a swap not stored when the mark reaches its time is never stored by any continuation |
| Ingest.CompleteToMarkExactly | app/services/price_ingest.py:157-206 | with no assumption on order, limit or success: all tradable swaps up to the mark are stored if and only if each poll that moved the mark covered them |
| Ingest.TieIsLost | app/services/price_ingest.py:157-160 | of two swaps in one second, one that the first answer lacks is never stored |
| Events.ChannelManager.Connect | app/api/ws/events.py:152-160 | registers a client with no channels and no market filter |
| Events.ChannelManager.Disconnect | app/api/ws/events.py:161-165 | removes exactly that client, if present |
| Events.ChannelManager.AddSubscription | app/api/ws/events.py:167-177 | adds the valid channels and the market ids of a registered client only |
| Events.ChannelManager.HandleCommand | app/api/ws/events.py:480-514 | the effect of one received command on the table |
| Events.ChannelManager.Broadcast | app/api/ws/events.py:186-212 | tries each matching client exactly once, nobody else, and drops those that failed |
| EventRuns.Enter | app/api/ws/events.py:447-451 | registering and starting the poller for the first client is the Register step |
| EventRuns.Serve | app/api/ws/events.py:465-541 | one received command, on the objects, is the Obey step |
| EventRuns.Leave | app/api/ws/events.py:547-551 | the finally block is the Finish step: remove, and stop the poller after the last client |
| EventRuns.Lifecycle | app/api/ws/events.py:186-212 | over every interleaving clients belong to serving handlers, hold valid channels, and a non-empty table means the poller runs |
| EventRuns.AllQuiet | app/api/ws/events.py:547-551 | once no handler serves, the table is empty and the poller is off |
| EventHistory.BroadcastDelivers | app/api/ws/events.py:186-212 | with sends, commands, drops and disconnects interleaved, a broadcast has exactly one turn for each client registered at its start, sends at that turn exactly if the client's history up to then asks for it, and notes as dead just those to which its own send failed |
| EventTasks.OneUncancelledTaskExactly | app/api/ws/events.py:265-280 | at most one uncancelled polling task at every moment, if and only if no registration finds the table empty while the poller runs |
| EventTasks.OneTaskExactly | app/api/ws/events.py:265-280 | at most one unfinished polling task at every moment, cancelled ones included, if and only if no registration finds the table empty while the poller runs or a cancelled task is still awaited |
| EventTasks.NoTaskLeft | app/api/ws/events.py:271-279 | once every handler is gone no cancelled task is unfinished, and without orphaning registrations no task at all |
| EventTasks.TwoTasksReachable | app/api/ws/events.py:209-212 | a run with two uncancelled polling tasks: the poller's last client is dropped by a failed send |
| EventTasks.PendingStopOverlap | app/api/ws/events.py:271-279 | a run without orphaning in which a client registers during the wait for the cancelled task: two unfinished tasks |
| EventHistory.DeadExactly | app/api/ws/events.py:204-208 | a broadcast's dead clients are exactly those to which a send of it has failed |
| EventHistory.LeavesExactly | app/api/ws/events.py:161-165 | a client leaves the table by its own departure or at the end of a broadcast whose send to it failed, and in no other way |
| EventHistory.TableMatchesHistory | app/api/ws/events.py:167-184 | membership, channels and market filter are those of the events alone, also for clients dropped from the table |
| EventHistory.DeliveryMatchesHistory | app/api/ws/events.py:186-207 | a broadcast goes exactly to registered clients whose last command naming the channel subscribed and whose filter allows the market |
| EventRest.CanComeToRest | app/api/ws/events.py:263-299 | from every reachable state some continuation ends every handler, broadcast and task, with an empty table and the poller off |
| Spot.ListSpotMarkets | app/api/v1/spot.py:50-84 | the scan loop and its cursor compute the page function |
| Spot.PageIsStretch | app/api/v1/spot.py:50-84 | for any cursor a page is a contiguous stretch of the registry, from the first id after the cursor to the limit or the first id out of sight, and offers a next page exactly if full |
| Spot.WalkIsPrefix | app/api/v1/spot.py:50-84 | the walk returns existing ids in increasing order, none skipped, up to the first unreachable one |
| Spot.CompleteExactly | app/api/v1/spot.py:50-84 | the walk is complete if and only if every id has at most 4 missing before it and lies within 50 of its page's cursor |
| Spot.SmallGapsComplete | app/api/v1/spot.py:50-84 | gaps of at most g < 5 with limit·(g+1) ≤ 50 make the walk complete |
| Subgraph.GetAllPairs | app/chain/subgraph.py:382-426 | terminates against a growing server with strictly ascending ids, all initial pairs and nothing outside the last set |
| Subgraph.AscendingUnique | app/chain/subgraph.py:382-426 | ascending lists with the same ids are equal, so a server that does not change gives its sorted set |

## Left out

- Rounding of floats in the limiter: tokens and times are exact reals.
- A second middleware instance: `_ip_tiers` is shared by all instances of the class, and `app/main.py:104` creates one.
- Backward steps of the wall clock under the nonce store (`time.time`): the sign-in theorems take clock reads that never go back.
- JWT decoding, signature recovery, and parsing and comparing times: outcomes are parameters.
- SiweMessage.Parse: `\d` is ASCII digits only, and the interpreter's cap on the length of integer texts is not modelled.
- SiweNonces.VerifySiwe: letter case is folded for ASCII only, which covers hexadecimal addresses.
- RateLimit.TierNamed: the upper-casing of the tier name is part of the parameter.
- Ingest.ClassifyMarket: symbols are upper-cased for ASCII letters only.
- Malformed numbers in a swap, and the backfill.
- Swap.SlippageAbsorbsFrontRunning: the bound is sufficient; it ignores the fee kept by the pool and so is not tight.
- On-chain integer widths: amounts are unbounded naturals, as in the service's own Python.
- Events.ChannelManager.Broadcast: the method is one uninterrupted broadcast; interleaving is in the state machine of `EventRuns.dfy`.
- Cancellation of handlers at server shutdown, and timestamps kept per client.
- Spot market names and synth addresses: only which ids answer matters.
- Subgraph errors: a failed request aborts the pair loop with no result.
- RPC and contract wrappers, gas, signing, UMA, Synthetix, agents, the JSON registry, share cards, comments and deployment: foreign calls or I/O with little logic.
