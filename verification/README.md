# Per-address request throttle with escalating bans

A Dafny model of the admission throttle of the movie service:
- `AnonymousRateThrottle` in `movies/throttling.py`.
- The client-address extraction it keys on, `get_client_ip` in `movies/utils/ip.py`.

Each request is identified by a client address. The throttle first checks whether that address is banned; a banned request is refused without touching anything.

Otherwise the request is counted in fixed minute, hour and day windows kept in a shared Redis store:
- Each counter gets its lifetime (60, 3600 or 86400 seconds) only when the request creates it.
- The request is refused when any count, this request included, passes its limit (5, 20, 50).
- A refused request adds one to a 24-hour violation tally. Once the tally reaches 10, a ban flag is written for 3600 seconds.

The model has six modules. `Wrappers` (`wrappers.dfy`) holds only the shared `Option` type. The other five follow the source:

- `ClientIp` (`client_ip.dfy`) models `get_client_ip` as a pure function over the request metadata, given as a map from header name to text.
  - With a non-empty `X-Forwarded-For` header, the result is the header's text before the first comma, with whitespace stripped from both ends. This follows Python's `split(',')[0].strip()`, where whitespace is exactly what `str.isspace` accepts.
  - Otherwise the result is `REMOTE_ADDR`, or `None` when that header is missing too.
  - Being a function, it cannot change the metadata.
- `KeyValueStore` (`kv_store.dfy`) models the store as a class `Store` whose `entries` field maps each key to an integer and an optional deadline.
  - A key whose deadline is at or before `now` counts as absent.
  - `Incr`, `Expire`, `Exists` and `SetEx` are methods. Each is specified by a pure function of the old map: `Incremented`, `WithExpiry`, `Live` and `WithValueAndExpiry`.
- `CacheKeys` (`cache_keys.dfy`) models `get_cache_keys`.
  - The five keys are real strings, `"rl:ip:" + ip + ":minute:" + decimal(now / 60)` and so on.
  - Different (address, slot) pairs are proved to give different keys.
- `Throttling` (`throttling.dfy`) models `allow_request`.
  - The pure specification is `Decide`, which works on the five keys, and `Admit`, which works on the address text.
  - `AllowRequest` is the imperative method. It issues the store commands in the source's order.
  - Python's f-string writes a missing address (`None`) into the keys as the text `"None"` (`IpText`). All requests without an address therefore share one set of counters, together with any client that sends the literal header value `None`.
- `ThrottleRuns` (`throttle_runs.dfy`) replays sequences of requests against one store. It proves what the throttle promises across calls: the sixth request in a minute is refused, and a ban holds.

Time is a parameter `now` in whole seconds. Buckets are `now / 60`, `now / 3600` and `now / 86400`, which for non-negative time equal Python's `int(time.time() // 60)` and the like.

## Model

| member | source | states |
|---|---|---|
| ClientIp.IsSpace | movies/utils/ip.py:14 | no contract; the whitespace set `str.strip()` removes (Python's `str.isspace`), used by `StripLeading`, `StripTrailing` and `Strip` |
| ClientIp.FirstField | movies/utils/ip.py:14 | `split(',')[0]`: a prefix of the header that holds no comma and ends at the first comma or at the end of the text |
| ClientIp.FirstFieldAt | movies/utils/ip.py:14 | any comma-free prefix that ends at a comma or at the end of the text is exactly `FirstField`, so the first field is unique |
| ClientIp.StripLeading | movies/utils/ip.py:14 | `lstrip()`: the result is a suffix; everything removed is whitespace; the result does not start with whitespace |
| ClientIp.StripTrailing | movies/utils/ip.py:14 | `rstrip()`: the result is a prefix; everything removed is whitespace; the result does not end with whitespace |
| ClientIp.StripLeadingPadded | movies/utils/ip.py:14 | a whitespace run followed by a non-space or by nothing is exactly what `lstrip()` removes |
| ClientIp.StripTrailingPadded | movies/utils/ip.py:14 | a whitespace run preceded by a non-space or by nothing is exactly what `rstrip()` removes |
| ClientIp.Strip | movies/utils/ip.py:14 | `strip()`: the result has no leading or trailing whitespace, and the input is the result padded on both sides by whitespace only |
| ClientIp.PaddedIsStrip | movies/utils/ip.py:14 | for every way of writing a text as whitespace, then a core with no surrounding whitespace, then whitespace, the core is `strip()` of the text |
| ClientIp.GetClientIp | movies/utils/ip.py:11-16 | a present, non-empty forwarded-for header gives the trimmed first field, which holds no comma and no surrounding whitespace; otherwise the result is `REMOTE_ADDR` exactly, or `None` when absent |
| ClientIp.FirstFieldStripped | movies/utils/ip.py:14 | `strip()` of the first field is a trimmed first field of the header and contains no comma |
| ClientIp.TrimmedFirstFieldIsStripped | movies/utils/ip.py:14 | every text meeting the trimmed-first-field description equals `strip()` of `split(',')[0]` |
| ClientIp.TrimmedFirstFieldUnique | movies/utils/ip.py:14 | at most one text meets the trimmed-first-field description, so the header result is determined by the description alone |
| ClientIp.PlainHeaderUnchanged | movies/utils/ip.py:12-14 | a non-empty header with no comma and no surrounding whitespace is returned unchanged |
| KeyValueStore.Live | movies/throttling.py:40 | no contract; a key exists at `now` when it is stored and its deadline, if any, is after `now`, so an expired key counts as absent. `Store.Exists` is specified by it |
| KeyValueStore.ValueAt | movies/throttling.py:44-46 | no contract; the integer INCR starts from: the stored value of a live key, 0 for a missing or expired one. `Incremented` and `Store.Incr` are stated with it |
| KeyValueStore.Incremented | movies/throttling.py:44-46 | INCR: the key is live afterwards with its count at `now` one higher; a live key keeps its deadline, a new or expired one has none; no other key changes |
| KeyValueStore.WithExpiry | movies/throttling.py:48-53 | EXPIRE: a live key gets deadline `now + ttl` and keeps its value; a missing key stays missing; no other key changes |
| KeyValueStore.WithValueAndExpiry | movies/throttling.py:70 | SETEX: the key holds `v` and is live exactly for times before `now + ttl`, whatever was there before; no other key changes |
| KeyValueStore.Store.Incr | movies/throttling.py:44-46 | returns the previous count at `now` plus one, and the map becomes `Incremented` of the old map |
| KeyValueStore.Store.Expire | movies/throttling.py:48-53 | reports whether the key was live, and the map becomes `WithExpiry` of the old map |
| KeyValueStore.Store.Exists | movies/throttling.py:40 | equals `Live` of the key at `now`: true exactly when the key is stored and its deadline, if any, is after `now`; the store is not changed |
| KeyValueStore.Store.SetEx | movies/throttling.py:70 | the map becomes `WithValueAndExpiry` of the old map |
| CacheKeys.DecimalText | movies/throttling.py:24-26 | the decimal text of a bucket number: non-empty, all digits, and at least two digits exactly when the number is 10 or more |
| CacheKeys.DecimalTextRoundTrip | movies/throttling.py:24-26 | reading the digits of `DecimalText(n)` back gives `n`, and a text of two or more digits does not start with `0`, so it is Python's `str(n)` |
| CacheKeys.DecimalTextInjective | movies/throttling.py:24-26 | different bucket numbers give different texts |
| CacheKeys.SlotTextInjective | movies/throttling.py:24-29 | the five key suffixes (three windows with their buckets, violations, banned) never coincide for different slots |
| CacheKeys.KeyOfInjective | movies/throttling.py:24-29 | two keys are equal exactly when both the address text and the slot are equal, for any address text |
| CacheKeys.SlotKeysDistinct | movies/throttling.py:24-29 | the minute, hour, day, violations and banned keys of one address are pairwise different |
| CacheKeys.SlotText | movies/throttling.py:24-29 | no contract; the part of a key after the address: `:minute:`, `:hour:` or `:day:` and the bucket in decimal, or `:violations`, or `:banned`. Its properties are `SlotTextInjective` and `KeyOfInjective` |
| CacheKeys.KeyOf | movies/throttling.py:24-29 | no contract; `rl:ip:` then the address text then the slot text. Its properties are `KeyOfInjective` and `CacheKeysOwned` |
| CacheKeys.CacheKeysFor | movies/throttling.py:21-31 | `get_cache_keys`: five pairwise-different keys |
| CacheKeys.CacheKeysOwned | movies/throttling.py:24-29 | a key is among an address's five keys at `now` exactly when it belongs to that address and to one of the current slots |
| CacheKeys.WindowKeysFollowBuckets | movies/throttling.py:24-26 | two times share the minute, hour or day key exactly when they share `now / 60`, `now / 3600` or `now / 86400` |
| Throttling.IpText | movies/throttling.py:24-29 | no contract; how the f-string writes `get_client_ip`'s result into a key: the address text as it is, and a missing address (`None`) as the text `None` |
| Throttling.ExpireIfCreated | movies/throttling.py:48-53 | `if count == 1: expire(...)`: the key's liveness and value are kept; its deadline becomes `now + ttl` only when the count is 1; no other key changes |
| Throttling.CountWindows | movies/throttling.py:44-53 | the three counts it reports are the previous counts at `now` plus one |
| Throttling.CountWindowsEffect | movies/throttling.py:44-53 | counting adds one to each window counter; a counter's deadline is set to its window length only when its previous count was 0, and is kept otherwise; no other key changes |
| Throttling.RecordViolationEffect | movies/throttling.py:62-70 | the tally goes up by one, and gets 86400 s of life only when new; once it reaches 10 the ban flag becomes 1 for 3600 s; otherwise nothing but the tally changes |
| Throttling.RecordViolation | movies/throttling.py:62-73 | no contract; the over-limit branch as a function of the store: INCR the tally, EXPIRE it if new, SETEX the ban once the tally reaches 10. Its properties are `RecordViolationEffect` and `DecideRecordsViolation` |
| Throttling.Decide | movies/throttling.py:37-75 | no contract; the pure `allow_request` over the five keys of a request. Its properties are `BannedLeavesStoreUnchanged`, `DecideVerdict`, `DecideCountsWindows`, `DecideRecordsViolation` and `DecideFrame` |
| Throttling.Admit | movies/throttling.py:33-75 | no contract; `Decide` with the keys `get_cache_keys` derives for the address text at `now`. Its properties are `AdmitIsolation` and `OtherClientsDoNotAffectVerdict`; `AllowRequest` is proved equal to it |
| Throttling.BannedLeavesStoreUnchanged | movies/throttling.py:40-41 | a request for a banned address is refused and the store is left exactly as it was |
| Throttling.DecideVerdict | movies/throttling.py:56-75 | allowed exactly when not banned and every count, this request included, is within its limit (so the request reaching a limit passes and the next is refused); an over-limit request is refused whether or not it bans |
| Throttling.DecideCountsWindows | movies/throttling.py:44-53 | for an address that is not banned, each of the three window counters goes up by exactly one, and its deadline moves only when this request created it, so windows are fixed rather than sliding |
| Throttling.DecideRecordsViolation | movies/throttling.py:62-73 | an over-limit request adds exactly one to the tally, however many windows it exceeds, with first-touch expiry; at 10 or more the ban is set or reset to the full 3600 s; a request within limits leaves tally and ban as they were |
| Throttling.DecideFrame | movies/throttling.py:37-73 | a request changes no key other than its own five |
| Throttling.AdmitIsolation | movies/throttling.py:24-29 | a request never changes any key of another address, for any slot and bucket |
| Throttling.SameKeysSameVerdict | movies/throttling.py:40-60 | two stores that agree on an address's window counters and ban flag give it the same ban check and the same limit check |
| Throttling.OtherClientsDoNotAffectVerdict | movies/throttling.py:24-29 | another address's request leaves this address's next verdict unchanged, at any later time |
| Throttling.AllowRequest | movies/throttling.py:33-75 | the verdict and the new store are those of `Admit` for the address `get_client_ip` returns, with `None` written as "None" |
| Throttling.AllowAddress | movies/throttling.py:37-75 | EXISTS, then three INCRs and conditional EXPIREs, then the violation branch, give exactly `Admit`'s verdict and store |
| Throttling.CountRequest | movies/throttling.py:44-53 | the three returned counts and the new store are exactly `CountWindows` of the old store |
| Throttling.ExpireIfNew | movies/throttling.py:48-53 | the new store is `ExpireIfCreated` of the old one |
| Throttling.RecordViolationIn | movies/throttling.py:62-73 | the new store is `RecordViolation` of the old one |
| ThrottleRuns.Replay | movies/throttling.py:33-75 | one verdict per request, in order |
| ThrottleRuns.SameMinuteBuckets | movies/throttling.py:24-26 | a time in the same minute bucket as the first shares all five keys with it and lies before the first counter's deadline |
| ThrottleRuns.BurstSeenAt | movies/throttling.py:40-46 | after `n` requests of a burst, a further request of that minute sees every window count at `n`, no violation and no ban |
| ThrottleRuns.BurstStepAllowed | movies/throttling.py:44-60 | while the minute count is below 5, one more request of the burst is allowed and the counters move to `n + 1` with their first deadlines |
| ThrottleRuns.BurstStepRefused | movies/throttling.py:56-66 | the request after five in one minute is refused and the tally becomes 1 |
| ThrottleRuns.BurstPrefix | movies/throttling.py:44-60 | from an empty store, the first five requests of one address within one minute bucket are all allowed |
| ThrottleRuns.BurstSixth | movies/throttling.py:56-66 | the verdicts on the first six such requests are allowed ×5, then refused, with the tally at 1 |
| ThrottleRuns.BurstOfSix | movies/throttling.py:44-73 | from an empty store, six requests of one address within one minute bucket: five allowed, the sixth refused, violation count 1 |
| ThrottleRuns.BanStep | movies/throttling.py:40-41 | while an address's ban flag is live, any request leaves the flag as it is, and a request from that address is refused |
| ThrottleRuns.BanHolds | movies/throttling.py:40-41 | across any sequence of requests from any addresses, while the ban flag is live every request from the banned address is refused and the flag is untouched |
| ThrottleRuns.BanLastsItsDuration | movies/throttling.py:69-71 | the request that brings the tally to 10 bans its address for every later request within 3600 s |

## Left out

- `get_redis_connection` (movies/throttling.py:7-9) and the Redis server itself are replaced by the in-memory `Store`. The network, connection errors and timeouts are not modelled.
- `allow_request` (movies/throttling.py:33-75) does not handle an unreachable store: it has no `try`/`except`, so a Redis error propagates out of it and there is no fail-open path. The model's store always answers.
- Concurrency is not modelled. The model does not cover parallel requests that interleave their INCRs, or a crash between an INCR and its EXPIRE that leaves a counter without a deadline. Each call runs alone and to completion.
- The clock is not modelled. `get_cache_keys` reads `time.time()` three times (movies/throttling.py:24-26); the model uses one reading, `now`, in whole seconds, for all three buckets and all store commands. Calls that straddle a bucket boundary between the reads are not covered.
- Redis's paths for a TTL of zero or less (EXPIRE deleting the key, SETEX failing) are left out. The throttle only passes the positive constants 60, 3600, 86400 and 3600.
- INCR's 64-bit overflow error is not modelled; counts are unbounded integers.
- The local `ip` at movies/throttling.py:35 is computed but never used, so it is not modelled.
- movies/throttling.py:5 imports `get_client_ip` from `.ip`. The model takes `movies/utils/ip.py` as the function meant.
- `wait()` (movies/throttling.py:77-78) returns nothing and is not modelled.
- The views, services, serializers, models and URL routing of the repository are not part of this model. They are HTTP and ORM glue around external services.
