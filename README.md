# eztron request engine, modelled in Dafny

This project models the request engine of **eztron**, a Node.js client for
the TRON network's HTTP API (TronGrid). The model covers five parts:

- **The API key pool of `TokenClient`.**
  - The `apikeys` table maps each key to `[inUse, dailyTotal]`.
  - The `fronzekeys` table maps each frozen key to `[expiry, carriedTotal]`.
  - The `overloadKeys` list holds the evicted keys; `resetDay` holds the current day.
  - The operations are `_setKeys`, `_getKeys` (day reset, unfreeze sweep, scan passes and polling loop), `_freeKey` and `_beforeRequest`.
- **The admission scheduler.**
  - It consists of the `requestPending` counter and the `requestTask` FIFO of `_request`.
  - It includes the constructor's `rps` adjustment and `request`'s scalar-or-array fan-out.
- **The retry driver.**
  - This is the callback `_sendRequest` hands to `http.requestSession`, with `_afterRequest` and `_getFrozenTime`.
  - The recursion of `requestSession` runs it: attempt counter, `next` handling, option replacement and swallowed callback errors.
  - Also modelled: `createConnection`'s countdown and `esleep`.
- **Batch shaping.**
  - `formatOptions` and `formatResponse`.
  - The four de-duplicating lookups of `TronGridClient`.
  - `getTrc20TransactionsV1`: transfer extraction, `lastHash` search and fingerprint paging.
- **The string helpers of `bytes.js`.**
  - `isHexChar`, `isHex` and `hexlify`.
  - `decimalToHex`, over the integers.
  - The address conversions `hexAddressToB58`, `b58AddresstoHex`, `isValidAddress`, `toHexAddress` and `replaceAddressPrefix`.
  - The validator `assertValid`.

Modules, one per file:

| module | file | models |
|---|---|---|
| `Wrappers` | wrappers.dfy | `Option` and `Result` |
| `OrderedMap` | ordmap.dfy | a JavaScript `Map` as a sequence of entries in insertion order |
| `KeyPool` | pool.dfy | the key pool as values: every table update as a function, with its invariants |
| `Http` | http.dfy | one attempt's event stream, the `requestSession` recursion, `createConnection`, `esleep` |
| `Retry` | retry.dfy | `_beforeRequest`, `_afterRequest`, `_getFrozenTime` and the retry callback |
| `Admission` | admission.dfy | `_request`'s counter and queue, and `request`'s fan-out plan |
| `Client` | tokenclient.dfy | class `TokenClient`: the fields and the imperative methods, each proved equal to the `KeyPool`/`Admission` functions |
| `Batch` | batch.dfy | `formatOptions`, `formatResponse`, and the lookups of `TronGridClient` |
| `TronGrid` | trongrid.dfy | `getTrc20TransactionsV1` |
| `Bytes` | bytes.dfy | hex, address conversion and `assertValid` |

**How the boundaries are modelled.**

- **Clock.** The clock is a parameter: `now`, or `clock(t)` for retry attempt `t`.
- **Network.**
  - An attempt's stream events come from an oracle `send(times, options)`.
  - TRC-20 pages come from `fetch(round, request)`.
  - Whether the session is still open comes from `open(times)`.
- **Foreign libraries.** Their functions are parameters with no body:
  - sha256 and Base58: the `Codec` record;
  - `JSON.parse`: `parse`;
  - `querystring.stringify`: `stringify`;
  - `Number()` on strings: `numeric`.
- **JavaScript `Map`s.** They are sequences of entries, so iteration order is part of the model.
- **In-place updates.** Mutating `val[0]` and `val[1]` during a scan becomes a rewrite of the entry at its own position.

**Behaviour of the code that the model keeps, though a reader might expect otherwise:**

- **No clamp to the daily limit.** `_getKeys` takes `min(keyRps - inUse, need)` copies of a key (src/TokenClient.js:250). Only a key whose total has already reached `keyLimit` is evicted (src/TokenClient.js:241-245). So a daily total can end above `keyLimit`, by less than `keyRps`.
- **No daily reset.** The comment at src/TokenClient.js:217 announces a daily reset. The loop under it (src/TokenClient.js:220-222) throws a ReferenceError instead, so evicted keys never return (see Findings).
- **Unfreezing.** The sweep at src/TokenClient.js:226-231 tests `val < now`, so a frozen key comes back only strictly after its expiry. The sweep never removes the frozen entry, so every later sweep resets that key's counters to `[0, carried]`.
- **Key release.** `_freeKey` is called only when the retries are exhausted (src/TokenClient.js:345) and on a 403 with a key (src/TokenClient.js:317). After a successful request the key's `inUse` stays raised.
- **403 without a key.** The comment at src/TokenClient.js:308 says such a request can be tried once more with a key. The code asks for a key on every such 403, within the `maxRetry` budget. When the pool has no key, the header is dropped and the next 403 repeats this.
- **Requests in flight.** The constructor stores `max(1, rps - 1)` (src/TokenClient.js:137), and `_request` queues only when more than that are pending (src/TokenClient.js:370). So `max(1, rps - 1) + 1` requests run at once: `rps` for rps ≥ 2, and 2 for rps = 1 (see Findings).

## Model

| member | source | states |
|---|---|---|
| KeyPool.Repeat | src/TokenClient.js:254 | `Array(take).fill(key)`: exactly n entries, each the key |
| KeyPool.RepeatCount | src/TokenClient.js:254 | the copies pushed hold n occurrences of the key and none of any other |
| KeyPool.AddKeysSpec | src/TokenClient.js:200-210 | every given key that is not evicted ends up active. Each new key starts at [0, 0], and keys already active keep their counters. Nothing else is added. The frozen table, evicted list and reset day are untouched, and the table stays a Map |
| KeyPool.Rollover | src/TokenClient.js:216-225 | as written: the day is recorded first, and the call throws exactly when the day changed and some key is evicted. Nothing else changes |
| KeyPool.Restore | src/TokenClient.js:220-222 | writing [0, 0] for each listed key: those keys are present with zero counters, all other keys keep their entries, and the table stays a Map |
| KeyPool.RolloverIntendedRestores | src/TokenClient.js:218-223 | the evidently intended reset: every evicted key is back with zero counters, the evicted list is empty, and every other key and the frozen table are unchanged |
| KeyPool.RolloverAsWrittenLosesEvicted | src/TokenClient.js:218-225 | counterexample: with one evicted key, the first call of a new day throws and records the day. The next call passes the reset, so the key never returns, where the intended reset restores it |
| KeyPool.UnfreezeSpec | src/TokenClient.js:226-231 | per key: a frozen key whose expiry is strictly before `now` is active as [0, carried], and any other key keeps its entry; the table stays a Map |
| KeyPool.UnfreezeRepeats | src/TokenClient.js:226-231 | the frozen entry is never removed, so after expiry every sweep resets the key to [0, carried], whatever it was handed meanwhile |
| KeyPool.Take | src/TokenClient.js:246-250 | the copies taken from one key: at most what is still needed and at most the key's headroom. There is at least one exactly when something is needed, the key is below the daily limit and it has headroom |
| KeyPool.ScanTakesAtMostNeed | src/TokenClient.js:239-258 | a scan pass never hands out more keys than are still needed |
| KeyPool.ScanKeyFate | src/TokenClient.js:239-245 | after a pass every key of the table is kept or evicted, never both, and nothing new is kept. Only keys whose total had reached `keyLimit` are evicted, and only kept keys are handed out |
| KeyPool.ScanKeepsDistinct | src/TokenClient.js:239-258 | the entries kept by a pass still form a Map |
| KeyPool.ScanPerKey | src/TokenClient.js:250-254 | a kept key's `inUse` and daily total each grew by exactly the number of copies of it handed out |
| KeyPool.ScanKeepsInUseBound | src/TokenClient.js:246-252 | a pass preserves `inUse <= keyRps` for every key |
| KeyPool.ScanOvershootBound | src/TokenClient.js:241-252 | the take is not clamped to the daily headroom, but a total a pass changes ends below `keyLimit + keyRps` |
| KeyPool.ScanOvershootExample | src/TokenClient.js:250-252 | a key at total 4 with limit 5 and keyRps 3 hands out 3 copies and ends at total 7 |
| KeyPool.ScanShortMeansSaturated | src/TokenClient.js:239-258 | a pass that hands out fewer than needed has seen every key: no kept key has headroom, and every key at the limit was evicted |
| KeyPool.ScanStep | src/TokenClient.js:240-254 | visiting one entry moves it from the rest of the pass into the part already done: into the evicted list at the limit, otherwise kept with both counters raised by its take |
| KeyPool.PassesTakesAtMostNeed | src/TokenClient.js:237-263 | the whole polling loop never hands out more than `amount` keys |
| KeyPool.PassesKeepInUseBound | src/TokenClient.js:238-263 | the polling loop preserves `inUse <= keyRps` |
| KeyPool.PassesFirst | src/TokenClient.js:259-262 | the loop ends after a pass that found enough or when the wait is used up. Otherwise it goes on with what is still needed, 10 ms later, and its results are the first pass's followed by the rest |
| KeyPool.PassesKeepDistinct | src/TokenClient.js:238-263 | the table after the polling loop is still a Map |
| KeyPool.ScanAfterShortPassIsEmpty | src/TokenClient.js:238-263 | with nothing released in between, a pass right after a short pass hands out nothing |
| KeyPool.SaturatedScanTakesNothing | src/TokenClient.js:246-249 | when no key has headroom, a pass hands out nothing |
| KeyPool.AcquireBound | src/TokenClient.js:237-258 | `_getKeys(amount)` returns at most `max(amount, 1)` keys |
| KeyPool.UnfreezeKeepsInUseBound | src/TokenClient.js:226-231 | the unfreeze sweep preserves `inUse <= keyRps`, since it writes 0 |
| KeyPool.AcquireKeepsInUseBound | src/TokenClient.js:213-266 | a whole `_getKeys` call preserves `inUse <= keyRps`, whether or not the day reset throws |
| KeyPool.FreeAbsentKeyIsNoOp | src/TokenClient.js:269-275 | freeing a key that is not active changes nothing |
| KeyPool.FreeReleases | src/TokenClient.js:281-283 | a falsy flag lowers `inUse` by one, floored at 0. The key's total is kept, every other key keeps its counters, and the iteration order is unchanged. The frozen table, evicted list and reset day are untouched |
| KeyPool.FreeKeepsInUseBound | src/TokenClient.js:269-286 | `_freeKey`, releasing or freezing, preserves `inUse <= keyRps` |
| KeyPool.AddKeysKeepsInUseBound | src/TokenClient.js:200-210 | `_setKeys` adds keys at inUse 0, so it preserves `inUse <= keyRps` |
| KeyPool.AcquireKeepsWellFormed | src/TokenClient.js:213-266 | both tables are still Maps after a whole `_getKeys` call, whether or not the day reset throws |
| KeyPool.FreeFreezes | src/TokenClient.js:276-280 | a truthy flag removes the key from the active table and records `[now + parseInt(flag) or 10000, total]` for it. Every other active key is unchanged |
| KeyPool.FreezeThenUnfreeze | src/TokenClient.js:276-280 | a key frozen at `now` for `ms` is back after the sweep at time t exactly when t > now + ms, and then as [0, its total] |
| Client.Tasks | src/TokenClient.js:404-415 | one task per planned option set, in order, each with the call's maxRetry |
| Client.SendAnswers | src/TokenClient.js:328-365 | `_sendRequest` answers exactly when connecting succeeded and the first `_beforeRequest` did not throw. The answer carries the host and the options that `_beforeRequest` produced |
| Client.PollStep | src/TokenClient.js:238-263 | one turn of the polling loop: the pass made either completes the loop's result or leaves the rest to the later passes |
| Client.TokenClient.constructor | src/TokenClient.js:124-144 | defaults apply for every missing option, `rps` becomes `max(1, rps - 1)`, and the pool is `_setKeys(keys)` on empty tables. The object starts `Valid`: both tables are Maps, no key is in use more than `keyRps` times, and at most `rps + 1` calls are in flight, with calls queued only when all slots are taken |
| Client.TokenClient.SetKeys | src/TokenClient.js:200-210 | the new pool is `AddKeys` of the old one, and `Valid` is kept |
| Client.TokenClient.VisitEntry | src/TokenClient.js:239-258 | one entry visited in place. At the limit it is deleted and its key pushed onto `overloadKeys`. Otherwise both counters grow by its take at the same position. The table stays a Map |
| Client.TokenClient.ScanPass | src/TokenClient.js:239-258 | the in-place loop leaves exactly the table, evicted keys and handed-out keys of the pass `Scan`, and appends the evicted keys to `overloadKeys` |
| Client.TokenClient.UnfreezeKeys | src/TokenClient.js:225-231 | the in-place sweep leaves exactly `Unfreeze` of the old table |
| Client.TokenClient.PollTurn | src/TokenClient.js:238-263 | one loop turn keeps the table a Map and hands out at most what is needed. It either completes the result or leaves the rest to the following passes |
| Client.TokenClient.Poll | src/TokenClient.js:238-263 | the `while (true)` loop leaves exactly the result of the polling passes `Passes` |
| Client.TokenClient.GetKeys | src/TokenClient.js:213-266 | `_getKeys` leaves the state `Acquire` describes. It throws exactly when that does, and otherwise returns its keys. `Valid` is kept |
| Client.TokenClient.FreeKey | src/TokenClient.js:269-286 | `_freeKey` leaves the state `Free` describes, and `Valid` is kept |
| Client.TokenClient.WithoutKey | src/TronGridClient.js:18-21 | sets `witoutedKey` to the flag given, and `Valid` is kept |
| Client.TokenClient.BeforeRequest | src/TronGridClient.js:24-29 | the overridden `_beforeRequest` leaves the pool and returns the options that `Retry.BeforeRequest` describes, or throws when that does. `Valid` is kept |
| Client.TokenClient.SendRequest | src/TokenClient.js:328-365 | `_sendRequest` leaves the pool state and gives the answer `Send` describes. `Valid` is kept through every callback of the session |
| Client.TokenClient.Submit | src/TokenClient.js:368-379 | the admission half of `_request`: the counter and queue that `Admission.Submit` describes. A `Valid` object stays `Valid` |
| Client.TokenClient.Complete | src/TokenClient.js:386-389 | the end of a started `_request`: the counter and queue that `Admission.Complete` describes, and the queued call it restarts. `Valid` is kept |
| Client.TokenClient.Request | src/TokenClient.js:393-418 | `request` plans the fan-out of `Plan` and submits its tasks in order. `Valid` is kept |
| Client.TokenClient.SubmitTasks | src/TokenClient.js:404-415 | the `for` loop submits each planned call in turn, as `SubmitAll` describes. `Valid` is kept |
| Retry.BeforeRequestPassesThrough | src/TronGridClient.js:24-29 | a first attempt whose options already carry a key, or a client switched to `withoutKey`, sends them unchanged and leaves the pool alone |
| Retry.BeforeRequestAppliesKey | src/TokenClient.js:289-297 | otherwise only the key header changes: it names the one key `_getKeys(1)` handed out, or is dropped when there was none. The day-reset throw passes through |
| Retry.CallbackFollowsDecision | src/TokenClient.js:337-358 | the callback's effect on the pool, its delay and its replacement options follow the decision table:<br>- exhausted: free the key, stop<br>- -1 or 501-599: retry in 100 ms<br>- other non-403: stop<br>- 403 without a key: re-key<br>- 403 with a key: free with the flag, and re-key only when the flag is truthy |
| Retry.BeforeRequestKeepsPool | src/TokenClient.js:289-297 | `_beforeRequest` keeps both tables Maps and `inUse <= keyRps`, whether or not it throws |
| Retry.AfterRequestKeepsPool | src/TokenClient.js:300-319 | `_afterRequest` keeps both tables Maps and `inUse <= keyRps` on every path |
| Retry.CallbackKeepsPool | src/TokenClient.js:337-358 | every answer of the retry callback, a throw included, keeps both tables Maps and `inUse <= keyRps` |
| Retry.Keyed403RotatesKey | src/TokenClient.js:312-325 | with the base `_getFrozenTime`, a 403 on a keyed request freezes that key for 10 s and retries at once with new options |
| Retry.ZeroParsedFreezeRetries | src/TokenClient.js:276-318 | a truthy `_getFrozenTime` answer that `parseInt` reads as 0 (`"0"`, 0.5) freezes the key only until `now`, and still retries at once with another key |
| Retry.FalsyFreezeReleasesAndStops | src/TokenClient.js:313-318 | a `_getFrozenTime` answering a falsy value releases the key normally, freezes nothing and does not retry |
| Retry.NonForbiddenKeepsPool | src/TokenClient.js:344-357 | before the limit, any code but 403 leaves the pool exactly as it was: a successful request does not release its key |
| Retry.SessionEnds | src/TokenClient.js:344-348 | with the client's callback, a session ends within `max(maxRetry, 0) + 1` attempts |
| Retry.Always503 | src/TokenClient.js:344-352 | a server always answering 503 gets the same options `max(maxRetry, 0) + 1` times, 100 ms apart. The last 503 is returned, not thrown, and the key is freed once |
| Http.Wait | src/http.js:9-15 | `esleep` waits the time given when it is positive, and not at all otherwise |
| Http.SilentStreamIs500 | src/http.js:95-112 | a stream that closes with no response event and no error has code 500, the initial headers, and the data received |
| Http.SilentAttemptIs500 | src/http.js:95-97 | a fresh attempt that closes silently has code 500 and its data chunks |
| Http.FailedStreamIsMinusOne | src/http.js:108-112 | an error ends the attempt with code -1 and the error as data, whatever came before it |
| Http.AnsweredAttempt | src/http.js:156-166 | a response event, data chunks and a close give the status, headers and concatenated data |
| Http.ChunksCollect | src/http.js:164-166 | data events append their chunks to the data in order |
| Http.RequestSession | src/http.js:86-176 | the recursion as a loop: the result of the recursive definition `Session`, from attempt 0 |
| Http.SessionCounts | src/http.js:138-151 | a session sends one option set per attempt and waits once between consecutive attempts |
| Http.ClosedSessionReturnsFirstResponse | src/http.js:126-140 | with the session closed, the callback is skipped and the first response is returned as received |
| Http.ThrowingCallbackStops | src/http.js:126-140 | a callback that throws leaves `next` at -1: the session ends with the response it was shown, after one send |
| Http.RetryResends | src/http.js:138-151 | `next >= 0` waits `esleep(next)` and sends the replacement options, or the same options when none are given, as attempt times + 1 |
| Http.SessionPrefix | src/http.js:141-151 | a session only appends to what was already sent and waited, starting with the current options |
| Http.SessionKeeps | src/http.js:126-151 | a property of the state that every callback preserves holds in the state the session ends in |
| Http.CreateConnection | src/http.js:18-41 | at most `max(times, 1)` connection attempts, 100 ms apart. It connects on the first success, and after `times` failures it rejects with the last error |
| Admission.EffectiveRps | src/TokenClient.js:137 | the stored `rps` is at least 1, and is `rps - 1` whenever `rps >= 2` |
| Admission.SubmitKeepsInv | src/TokenClient.js:368-379 | a call starts exactly when at most `rps` are pending. It is queued otherwise, and at most `rps + 1` run at once |
| Admission.CompleteStartsOldest | src/TokenClient.js:386-389 | a completion lowers the counter when nothing waits. Otherwise it starts exactly the oldest queued call, and the bound holds |
| Admission.StepIsFifo | src/TokenClient.js:368-389 | one event keeps the bound: the old queue plus what the event submits equals what it starts plus the new queue |
| Admission.RunIsFifo | src/TokenClient.js:368-389 | over any interleaving of submissions and completions, what started followed by what still waits is exactly what was submitted, in order; nothing is dropped |
| Admission.InFlightLimit | src/TokenClient.js:137 | the adjustment allows `rps` calls at once for rps >= 2, and 2 for rps <= 2 |
| Admission.SingleRpsAdmitsTwo | src/TokenClient.js:137 | a client built with rps = 1 starts two calls at once |
| Admission.EffectiveRpsIntended | src/TokenClient.js:137 | the corrected adjustment is never negative |
| Admission.IntendedLimit | src/TokenClient.js:137 | with the corrected adjustment, over any interleaving of submissions and completions on a fresh client, at most `max(1, rps)` calls are in flight. A call waits only when all of those slots are taken, and calls still start in submission order |
| Admission.IntendedSingleRpsAdmitsOne | src/TokenClient.js:137 | with the corrected adjustment, a client built with rps = 1 starts the first of two requests and queues the second |
| Admission.Merge | src/TokenClient.js:405-414 | one option set per row, each the shared options overridden by the row |
| Admission.PlanShape | src/TokenClient.js:393-403 | a non-empty array gives one request per row, each the shared options overridden by the row. Anything else gives the shared options once. A number replaces `maxRetry`, whose default is 3 |
| Admission.EmptyArraySendsOne | src/TokenClient.js:401-417 | an empty array still sends one request and answers with its single result |
| Admission.SubmitAll | src/TokenClient.js:404-416 | one admission answer per submitted request |
| Admission.SubmitAllFillsSlots | src/TokenClient.js:404-416 | with nothing queued, a batch starts its first free-slot-many requests and queues the rest in order |
| Admission.QueuedAll | src/TokenClient.js:370-377 | with every slot taken, a batch is queued whole, in order |
| Admission.SubmitAllSnoc | src/TokenClient.js:405-415 | submitting a batch one request at a time is the same as submitting it whole |
| Batch.DedupSpec | src/TronGridClient.js:34 | `[...new Set(xs)]` holds every value of xs, none twice |
| Batch.DedupOrder | src/TronGridClient.js:34 | `[...new Set(xs)]` lists its values in the order of their first occurrence in xs |
| Batch.KeepSpec | src/TokenClient.js:88-104 | the kept addresses are the de-duplicated addresses, in order of first occurrence. Each kept option set is the (mapped) set of the first item carrying its address |
| Batch.FormatOptions | src/TokenClient.js:73-106 | the loop returns what `FormatSpec` describes: the Error for an unsupported callback, otherwise onlyOne, addrStrs and multis |
| Batch.FormatOptionsShape | src/TokenClient.js:73-106 | it throws exactly for a callback that is neither a string nor a function. Otherwise `addrStrs` lists every address once, in order of first occurrence. `multis` is index-aligned with it and holds each address's first option set |
| Batch.RenameKeepsOptions | src/TokenClient.js:77-81 | a string callback only renames the address option: each string item is stored under that name and nothing is mapped |
| Batch.CollectOrder | src/TokenClient.js:108-114 | the keys of `formatResponse`'s object are the addresses, once each, in order of first occurrence |
| Batch.CollectLastWins | src/TokenClient.js:110-112 | an address listed more than once holds the response at its last position |
| Batch.CollectDistinct | src/TokenClient.js:108-113 | with distinct addresses, each address holds the response at its position |
| Batch.LookupShape | src/TronGridClient.js:32-42 | the values are the scalar or `[...new Set(items)]`: every item once, in order of first occurrence. One request per value, each with the shared options plus that value's row. An empty array sends the shared options alone. The answer is a single response exactly when the input is a scalar |
| Batch.LookupAnswers | src/TronGridClient.js:32-80 | a scalar lookup answers with its single response, and an array maps each distinct value to its own response |
| Batch.ValuesAnswers | src/TokenClient.js:108-113 | `formatResponse` over distinct values gives the single response for a scalar, and the value-to-response object otherwise |
| Batch.EmptyLookup | src/TronGridClient.js:32-42 | an empty array sends one bare request and answers with an empty object |
| TronGrid.ToTransfer | src/TronGridClient.js:151-160 | the amount is `+value` and the trader is `from` when `to` is the address; otherwise the amount is `-value` and the trader is `to`. The symbol is absent when a contract is queried |
| TronGrid.ScanPage | src/TronGridClient.js:144-177 | the row loop builds the page's transfers, rows and `found` exactly as `Scan` describes |
| TronGrid.ScanPairs | src/TronGridClient.js:147-173 | every transfer comes from the Transfer row stored beside it |
| TronGrid.ScanUpToLastHash | src/TronGridClient.js:161-176 | with `checkHash` and a `lastHash`, the Transfer rows are kept up to the one with that id. That row is excluded, and `found` says whether it occurred |
| TronGrid.ScanKeepsFirst | src/TronGridClient.js:161-176 | when the first Transfer row ends the scan, only that row is kept |
| TronGrid.ScanNoLastHash | src/TronGridClient.js:162-164 | with `checkHash` and no `lastHash`, only the first Transfer row is kept, and it counts as found |
| TronGrid.ScanWithoutCheckHashKeepsOne | src/TronGridClient.js:146-176 | as written, without `checkHash` a page keeps at most its first Transfer row |
| TronGrid.ScanWithoutCheckHashExample | src/TronGridClient.js:146 | a page with two Transfer rows and no `checkHash` gives one transfer |
| TronGrid.ScanIntendedKeepsAll | src/TronGridClient.js:146-176 | corrected (the loop with `found` starting false): without `checkHash` the kept rows are exactly the page's Transfer rows, in order, each giving its own transfer, and the scan never stops early |
| TronGrid.FollowShape | src/TronGridClient.js:181-185 | the follow-up link is the stored path, then `&` if it has a `?` or `?` if not, then `fingerprint=` and the fingerprint |
| TronGrid.VisitStores | src/TronGridClient.js:137-196 | a response that is not a formatted list replaces the address's entry. A list appends its rows and transfers to those of the earlier pages. Other addresses are untouched |
| TronGrid.VisitPages | src/TronGridClient.js:179-186 | a follow-up is queued exactly when the page was a list, the target was not found, the address has fewer than 10 follow-ups and the page has a fingerprint. The address's page count then goes up by one |
| TronGrid.BudgetSet | src/TronGridClient.js:179-180 | one more follow-up for an address takes one from the follow-ups still allowed |
| TronGrid.VisitBudget | src/TronGridClient.js:179-186 | each follow-up queued is paid for from that allowance |
| TronGrid.RoundRejects | src/TronGridClient.js:132-138 | a round rejects exactly when some response of that round is undefined, since `response.code` then throws a TypeError |
| TronGrid.RoundBudget | src/TronGridClient.js:137-196 | a round that completes queues no more follow-ups than the allowance it spends |
| TronGrid.CrawlFrom | src/TronGridClient.js:130-200 | the recorded rounds begin with the requests the current round sends |
| TronGrid.FirstPaths | src/TronGridClient.js:108-116 | one first path per address, in order: path i is the first path of address i |
| TronGrid.SentShape | src/TronGridClient.js:132-134 | a round sends `{":method": "GET", ":path": p}` for each queued path p, in order. A round with no path sends one bare GET without a path, since `request` turns an empty batch into `[{}]` (src/TokenClient.js:401-403) |
| TronGrid.StartsDistinct | src/TronGridClient.js:118-126 | `addrStarted` holds each address once |
| TronGrid.VisitAddress | src/TronGridClient.js:137-196 | the address loop's body does exactly what `Visit` describes |
| TronGrid.RunRound | src/TronGridClient.js:131-199 | one round's loop does exactly what `Round` describes |
| TronGrid.CrawlStep | src/TronGridClient.js:130-200 | a round that rejects ends the loop with the rejection. A completed round that queues a follow-up lowers the allowance. The loop stops after a round that queues none and otherwise goes on with the queued requests |
| TronGrid.StartAll | src/TronGridClient.js:118-126 | every address starts at page 0 of its first path |
| TronGrid.CrawlLoop | src/TronGridClient.js:130-200 | the `while (multis)` loop ends, with the stored responses (or the rejection) and the requests of each round that `CrawlFrom` describes |
| TronGrid.Trc20Transactions | src/TronGridClient.js:105-202 | `getTrc20TransactionsV1` gives the answer or the TypeError rejection, and the rounds of requests, that `Trc20Spec` describes |
| TronGrid.UndefinedFirstResponseRejects | src/TronGridClient.js:132-138 | an undefined response for any address in the first round rejects the whole call with the TypeError, after that round only |
| TronGrid.NoPagingWithoutCheckHash | src/TronGridClient.js:118-186 | without `checkHash` there is exactly one round. It sends the first request of each distinct address, in order, or one bare GET when there is no address |
| TronGrid.EmptyAddressListSendsOne | src/TronGridClient.js:105-202 | an empty address array makes one round that sends one bare GET, whose response no address reads, and answers with the empty object |
| TronGrid.NoStartNoFollowUp | src/TronGridClient.js:179-186 | an address missing from `addrStarted` is never paged |
| Bytes.HexCharExactly | src/bytes.js:26-31 | `isHexChar` is 1 exactly for strings that open a hex range and stay within it. On one character, that means exactly the hex digits |
| Bytes.HexExactly | src/bytes.js:33-35 | `isHex` holds exactly for strings of an optional `0x` followed by one or more hex digits |
| Bytes.HexOfDigits | src/bytes.js:267-274 | the hex of bytes uses only the characters of `HexCharacters` |
| Bytes.HexOfRoundTrip | src/bytes.js:268-276 | the hex of bytes decodes back to the same bytes |
| Bytes.Hexlify | src/bytes.js:268-276 | the loop gives `0x` followed by the two-digit hex of every byte |
| Bytes.HexlifyShape | src/bytes.js:268-276 | the result of `hexlify` is 2 + 2n characters: `0x`, then lowercase digits that decode back to the n bytes |
| Bytes.DecimalToHex | src/bytes.js:209-213 | `0x` and hex digits for n >= 0, and `-0x` and hex digits for n < 0 |
| Bytes.DecimalToHexRoundTrip | src/bytes.js:199-213 | `toBigNumber` reads `decimalToHex(n)` back as n |
| Bytes.TronPrefixBytes | src/bytes.js:301-308 | the bytes `hexAddressToB58` encodes always start with 0x41, followed by the hex after a leading `0x` or `41` |
| Bytes.CompareChecksum | src/bytes.js:330-337 | the loop over indices 0 to 4 accepts exactly when the two agree there, with `undefined` read past either end |
| Bytes.ChecksumMatchesIff | src/bytes.js:333-337 | for byte strings of up to five bytes, the comparison accepts exactly equal ones |
| Bytes.B58AddressToHex | src/bytes.js:315-327 | the result is `false` for a non-string, for fewer than 5 UTF-16 code units or no leading `T`, when decoding throws, and for fewer than 5 decoded bytes |
| Bytes.B58AddressResult | src/bytes.js:328-339 | a success is `41` and the hex of the payload after its first byte, where the payload is the decoded bytes less the checksum. It decodes back to those bytes with a 0x41 first byte |
| Bytes.HexB58RoundTrip | src/bytes.js:301-340 | a hex address, `41` and 40 hex digits, survives `hexAddressToB58` and `b58AddresstoHex`, in lower case, given a Base58 codec that round-trips |
| Bytes.HexAddressAlwaysValid | src/bytes.js:346-358 | as written, `isValidHexAddress` holds for every string, so `isValidAddress` accepts any string of `.length` 42 |
| Bytes.NotHexAddressAccepted | src/bytes.js:350-356 | `41` followed by 40 `z` is accepted, though it is not a hex address |
| Bytes.ValidHexAddressBytes | src/bytes.js:346-348 | corrected: a valid hex address names exactly 21 bytes, the first 0x41, and prints back as itself in lower case |
| Bytes.ToHexAddressOfHex | src/bytes.js:360-363 | hex input is lowercased, with a leading `0x` turned into `41` |
| Bytes.ReplaceEachPointwise | src/bytes.js:294-297 | an array is converted element by element, in order, into the same number of results |
| Bytes.ReplaceAddressPrefixOfHex | src/bytes.js:294-299 | a hex address starting with `0x` or `41` comes out as `0x` and its lowercase digits, which `toHexAddress` maps back to the same `41` form |
| Bytes.AssertValid | src/bytes.js:65-167 | the loop returns `false` when every param passes, and the first error otherwise |
| Bytes.ValidateStops | src/bytes.js:162-164 | once a param throws, the params after it are never examined |
| Bytes.ValidateSnoc | src/bytes.js:68-165 | validating one more param applies its rule to the object the earlier params built |
| Bytes.FirstFailure | src/bytes.js:68-165 | a failure comes from the first param that fails, checked against the object the params before it built, all of which passed |
| Bytes.AllPassed | src/bytes.js:68-166 | when nothing fails, every param passed on the object its predecessors built |
| Bytes.SkippedParamsIgnored | src/bytes.js:70-72 | optional params that are null or undefined, or `false` for a non-boolean type, neither fail nor leave a trace |
| Bytes.IntegerBounds | src/bytes.js:94-104 | integer bounds: `gt` and `lt` are strict, `gte` and `lte` are not. A value out of range gives "Invalid <name> provided" |
| Bytes.JsLength | src/bytes.js:150-160 | `.length` counts UTF-16 code units: at least the number of characters, at most twice it, and equal to it when no character lies beyond U+FFFF |
| Bytes.StringBounds | src/bytes.js:150-160 | the same bounds apply to a string's `.length`, in UTF-16 code units |
| Bytes.AstralCharIsTwoUnits | src/bytes.js:150-160 | a single character beyond U+FFFF has `.length` 2, so a `lte: 1` bound rejects it |
| Bytes.PositiveInteger | src/bytes.js:105-109 | `positive-integer` throws "<name> must be a positive integer" for values of 0 or below, whatever the message says |
| Bytes.ResourceKinds | src/bytes.js:125-129 | `resource` accepts exactly `BANDWIDTH` and `ENERGY` |
| Bytes.NotEqualCompares | src/bytes.js:120-124 | `notEqual` throws exactly when the two normalized values are `===`. It always throws when neither name was recorded |
| Bytes.AddressRecordsHex | src/bytes.js:75-93 | an address param records its hex form: as given when its `.length` is 42, and converted from Base58 otherwise |
| Bytes.SameAddressBothForms | src/bytes.js:75-124 | an address given in lower-case hex and the same address given in Base58 normalize equal, so `notEqual` on the pair throws |
| Bytes.BothFormsRecorded | src/bytes.js:75-93 | a lower-case hex address and its Base58 form are recorded as the same hex string |
| Bytes.UpperHexNotEqualToB58 | src/bytes.js:75-124 | a hex address is recorded as given, case and all. The same address in hex with an upper-case digit and in Base58 normalizes to two different strings, so `notEqual` on the pair does not throw |
| Bytes.AddressParamAcceptsAny41 | src/bytes.js:78-84 | as written, any string of `.length` 42 starting with `41` passes as an address |

## Findings

| source | as written | input that shows it | evidently intended | confidence | as-written member | corrected member |
|---|---|---|---|---|---|---|
| src/TokenClient.js:218-225 | the day-reset loop assigns to `key`, which the `let` after it declares, so it throws a ReferenceError after `resetDay` has been updated; the evicted keys are never restored | a pool with one evicted key, `_getKeys` on a new day | every evicted key returns with zero counters and the evicted list is emptied | high; not executed | KeyPool.RolloverAsWrittenLosesEvicted | KeyPool.RolloverIntendedRestores |
| src/TokenClient.js:137 | `rps` is stored as `max(1, rps - 1)` and a call is queued only when more than that are pending, so rps = 1 runs two calls at once | a client built with rps = 1, two requests | at most `max(1, rps)` calls in flight | medium; not executed | Admission.SingleRpsAdmitsTwo | Admission.IntendedLimit |
| src/TronGridClient.js:146 | `found` starts as `!checkHash`, so without `checkHash` the row loop breaks after the first Transfer row | a formatted page with two Transfer rows and `checkHash` off | every Transfer row of the page becomes a transfer | high; not executed | TronGrid.ScanWithoutCheckHashExample | TronGrid.ScanIntendedKeepsAll |
| src/bytes.js:346-348 | `isValidHexAddress` checks only that `hexAddressToB58` gives a non-empty string, which always holds because a `41` byte is always encoded | `"41"` followed by 40 `z` passes `isValidAddress` and `assertValid`'s address check | only `41` followed by 40 hex digits is a hex address | high; not executed | Bytes.NotHexAddressAccepted | Bytes.ValidHexAddressBytes |

In the first three rows the rest of the model keeps the behaviour as written.
For example, `Acquire` throws on the day reset, `Submit` admits `rps + 1`, and
`Scan` breaks at the first Transfer row. The corrected definitions stand beside
them with their properties proved. `ScanIntended` is the same row loop as
`Scan`, started with `found` false.

## Left out

- **HTTP/2 plumbing.**
  - Left out: `connect`, `_setKeepAliveTimer` and the ping timer, the `dropped` counter, `http2.connect` and the stream objects.
  - A connection is only a `connected` flag and an `open(times)` oracle.
  - An attempt is the sequence of events its stream delivers.
- **Http.Collect:** only the first terminal event of a stream is modelled. In the source, `onEnd` is registered for `close`, `error` and `frameError` (src/http.js:157-159), so an error followed by a close runs it twice. That can run the retry callback twice and start two retry chains. The model ends the attempt at the first close or error.
- **Async interleaving.** `await` points are not modelled. Pool and scheduler actions are serialized events, and a session's callbacks run one after another.
- **Timing analytics** (`timing`, `duration`, `request`'s totals in src/http.js:66-83 and 98-125) are left out, along with `Date.now()` itself.
- **Logging.** `debug`, `logger`, `logTime`, `TokenClient.log` and the logging in `autoLog`/`testResponse` are left out. Their results pass through unchanged.
- **`clone`** re-runs the constructor on the same options; it is left out.
- **Foreign libraries** are parameters with no body:
  - sha256 and Base58 (base-x): `Codec`;
  - `JSON.parse`: `parse`;
  - `querystring.stringify`: `stringify`;
  - `Number()` on strings: `numeric`.
  - BigNumber is modelled only for integer input, in `decimalToHex` and `toBigNumber`.
- **src/smart.js** is not part of this model. It covers transaction building, signing and broadcast, with keccak/secp256k1 and ABI coding.
- **Other files not modelled:** src/index.js, test.js, the build scripts and eslint.config.mjs.
- **Helpers of bytes.js not modelled:**
  - `any2Hex`, `any2Uint8Array`, `hex2Uint8Array`, `hexString2Utf8`, `utf8String2Hex`;
  - `keccak256`, `hexlifySha256`, `secp256k1Sign`;
  - `getPubKeyFromPriKey` and the key-to-address helpers;
  - `assertString`, `assertHex`.
  - `hexlify` is modelled on byte input only, since its other inputs go through `any2Uint8Array`.
- **TokenClient.isValidAddress** imports a name that bytes.js does not export. So it records `false` for every address, and it is not modelled as a validator.
- **TronGrid.ToTransfer** works on integer `value`s. JavaScript number multiplication and its rounding (src/TronGridClient.js:155) are not modelled.
- **Object items in the TRC-20 lookup.** `getTrc20TransactionsV1` is modelled for string addresses only. `Batch.FormatOptions` does model object items in general.
- **Raw earlier entry in `getTrc20TransactionsV1`.** In the source, a listed page after a raw stored entry for the same address would raise a TypeError. This cannot occur, since follow-ups are queued only after a listed page, and the model does not raise it.
- **JavaScript value semantics not modelled:**
  - String objects (`new String`) and `Infinity`;
  - `toLowerCase` beyond ASCII letters;
  - the ordering of integer-like keys in plain objects (insertion order is modelled);
  - names inherited from `Object.prototype`.
- **The `catch` around `Base58.encode` in `hexAddressToB58`** is not modelled, since encoding a byte buffer does not throw.
- **Http.Session:** bounded by a `fuel` count, because the source's recursion has no bound of its own. `Retry.SessionEnds` shows that `max(maxRetry, 0) + 1` attempts always suffice with the client's callback.
- **Client.TokenClient.Poll:** the time spent in a scan pass is not modelled. Each pass is followed by the 10 ms sleep, and the loop ends once the sleeps add up to `maxwait`. With the default `maxwait` of 0, exactly one pass runs.
- **Client.TokenClient.SendRequest:** the callback's pool updates are carried through the session as values and written back at its end. Other requests interleaving with a session are not modelled.
