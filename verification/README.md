# RS2 in Dafny

A model of the six engines at the heart of RS2, a multi-tenant service runtime,
and of its per-tenant load guard, with proofs of what they promise.

- **Wire codecs.** The BSON encoder and decoder (BSON specification, version
  1.1), the OP_MSG framing of the MongoDB wire protocol, a RESP2 client, and the
  exchange both retry in: `bson`, `bson_round_trip`, `bson_octets`, `op_msg`,
  `resp`, `exchange`, on `bytes`, `text`, `float64`.
- **Idempotency.** The slot store, any number of concurrent dispatchers over it,
  the histories of every run, and retries under a key: `idempotency`,
  `idempotency_protocol`, `idempotency_history`, `dispatch`, `retry`.
- **Scheduler.** Cron parsing and search over the Gregorian calendar, claims and
  epoch buckets, the node's loop: `calendar`, `cron`, `cron_search`, `claims`,
  `schedule_node`, `schedule_runs`, `schedule_times`.
- **WebSockets.** The atomic steps of push, close and writer; the rate meter,
  the dispatches in flight, the tenant ceiling: `socket_wire`, `socket_calls`,
  `socket_race`, `socket_limits`.
- **Listing.** The cross-type order, sorting, paging and projection: `json`,
  `listing_order`, `listing_meaning`, `listing_pages`, `listing_exists`,
  `projection`. The
  JavaScript `pick` over objects with prototypes: `js_objects`, `pick`; the same
  over own fields, `pick_plain`, which `pick_refines` ties to it, with its proofs
  in `pick_heap` and `pick_lists`; and what holds of `pick` itself: `pick_agrees`,
  `pick_shown`, `pick_shared`, `pick_decoded`.
- **Tenant sync.** The configuration planner, secrets and pins, mount ownership,
  the tree walk and its convergence: `sync_plan`, `sync_plan_laws`,
  `sync_secrets`, `ownership`, `tree_walk`, `walk_coverage`, `tree_sync`,
  `tree_sync_laws`.
- **Tenant loading.** Concurrent first requests for one tenant: `load_guard`.

Code that works step by step is a class or a method with loops, proved against a
specification function; concurrent code is a transition system over its atomic
steps, and its theorems quantify over every run. `dafny verify dfyconfig.toml`
checks everything.

Where a natural claim is false of the code, the code is kept, a lemma exhibits
the input or the run, and another states when the claim holds:

- a document with a NUL in a name, a property named `__proto__`, an integer
  beyond 64 bits or 2^31 octets does not survive the BSON round trip;
- a reply with a negative declared length is read differently for different
  chunks;
- a dispatcher cancelled between registering a slot and reporting leaves the
  slot in flight, and every later request under the key refused;
- a cron that only 29 February serves is fired on a minute it does not match;
- a claim issued late enough wins a bucket, or a cron occurrence, twice;
- a frame can be queued behind a Close, though the wire never carries it;
- twice the message rate can pass within one second, and a second reader of one
  socket would break its in-flight cap;
- mixed integers and doubles beyond 2^53 can compare in a circle, and then have
  no sorted listing;
- `pick` sees names that every object inherits, the record projection does not,
  and can write an inherited function into the document it reads;
- a decoded `__proto__` replaces the prototype of its object: plain paths then
  find what the record does not have, and a path through it can assign to the
  prototype all objects share;
- a mount at the path of the target's control mount is reported as changed by
  every plan;
- a pruned run deletes leaves the source has below a container it cannot list,
  and a second run writes again what the target does not list or refuses to serve;
- a target mount at the path of the source's control mount is lost by an
  unpruned plan;
- after a failed load or a purge callers can get different instances of one
  tenant, and a caller cancelled with its build in hand costs another build.

Where the code and its comments disagree the model follows the code: the writer
stops at a Close although the Close need not be the last item queued
(rs2-server/src/websocket.rs:187-190), and an unpruned plan drops a target-only
mount at the path of the source's control mount although target-only mounts are
said to be appended (rs2-cli/src/sync.rs:73-77).

## Model

| member | source | states |
|---|---|---|
| `Bytes.GetPushedI32` | guest-adapters/mongo-data.js:66 | an integer written as a little-endian int32 reads back as itself wrapped into 32 bits |
| `Bytes.GetPushedI64` | guest-adapters/mongo-data.js:67 | the same for 64 bits |
| `Float64.RoundExact` | guest-adapters/mongo-data.js:115 | every integer of magnitude up to 2^53 survives the conversion of an int64 to a Number |
| `Float64.RoundMonotone` | rs2-core/src/listing.rs:153-157 | rounding integers to binary64 never reverses their order |
| `Bson.EncodeInto` | guest-adapters/mongo-data.js:71-88 | the encoder loop appends exactly the encoding of the document: length prefix, elements in enumeration order, closing NUL |
| `Bson.EncodeElement` | guest-adapters/mongo-data.js:73-84 | one element: its type octet, NUL-terminated name and value |
| `Bson.EncodeValue` | guest-adapters/mongo-data.js:74-83 | the branch on a value's type: null, boolean, int32, int64, double, string, array (as an object of indices), object |
| `Bson.Decode` | guest-adapters/mongo-data.js:96-122 | the decoder loop computes the decoding function on every byte string, faults told apart, with the prototypes that `__proto__` sets and the own properties it becomes where no setter is inherited |
| `Bson.NextElement` | guest-adapters/mongo-data.js:102-119 | one turn of the decoder loop: type octet, name scan, value |
| `Bson.NextValue` | guest-adapters/mongo-data.js:108-118 | the branch on the type octet, with the offset after the value |
| `BsonRoundTrip.DecodeEncoded` | guest-adapters/mongo-data.js:66-122 | decoding an encoding at any offset of any buffer ends exactly at its end with what survives of the document, every nested prefix equal to the bytes consumed |
| `BsonRoundTrip.DecodedNulFree` | guest-adapters/mongo-data.js:103-106 | no decoded name contains a NUL, so a document with one cannot round-trip |
| `BsonRoundTrip.RoundTrip` | guest-adapters/mongo-data.js:66-122 | the round trip at any offset is the identity, prototypes included, and consumes exactly the encoding if and only if the encoding is shorter than 2^31 octets, no name holds a NUL or is `__proto__`, and every integer fits in 64 bits |
| `BsonOctets.I32Octets` | guest-adapters/mongo-data.js:66 | an int32 is its four octets in two's complement, the least significant first |
| `BsonOctets.I64Octets` | guest-adapters/mongo-data.js:67 | an int64 likewise, octet by octet |
| `BsonOctets.ElementOctets` | guest-adapters/mongo-data.js:73-84 | the octets of an element of every kind, with the type octets of the BSON specification |
| `BsonOctets.HelloWorld` | guest-adapters/mongo-data.js:71-88 | `{"hello": "world"}` is encoded to the 22 octets the BSON specification gives for it |
| `BsonOctets.ArrayNames` | guest-adapters/mongo-data.js:82 | the elements of an array are named 0, 1, 2 and so on: the names are digits that read back as the index |
| `BsonOctets.ObjectIdReads` | guest-adapters/mongo-data.js:117 | an ObjectId is read as 24 lowercase hexadecimal digits that read back to its twelve octets |
| `BsonOctets.DateReads` | guest-adapters/mongo-data.js:116 | a date up to 100 million days from 1970 is read as its milliseconds, and one beyond throws |
| `BsonOctets.OddValuesRead` | guest-adapters/mongo-data.js:112-118 | any octet but zero is true, also one past the end of the buffer; a type not listed throws |
| `OpMsg.PullKeepsStream` | guest-adapters/mongo-data.js:125-126 | `ensure` keeps the byte stream and stops short only when the stream is exhausted |
| `OpMsg.ChunkingIndependence` | guest-adapters/mongo-data.js:126-146 | for a non-negative declared length the reply and the unread bytes depend only on the byte stream, not on the chunks |
| `OpMsg.NegativeLengthDependsOnChunks` | guest-adapters/mongo-data.js:139-143 | a stream with a negative declared length whose head parses is read differently when only the length octets have arrived |
| `OpMsg.ChunksDoNotMatterIff` | guest-adapters/mongo-data.js:139-143 | all streams with given length octets are read independently of the chunks if and only if the length is not negative |
| `OpMsg.SessionIndependence` | guest-adapters/mongo-data.js:127-147 | over a whole session of commands every way of cutting the bytes yields the same replies and leaves the same suffix |
| `OpMsg.RequestParses` | guest-adapters/mongo-data.js:127-136 | the request `command` writes parses back to the document with `$db`, consuming exactly the request |
| `OpMsg.RequestHeader` | guest-adapters/mongo-data.js:127-136 | the request octet by octet: its length, the request number, no answered request, opcode 2013, no flags, one body section, and the document with `$db` |
| `OpMsg.ReplyIsReturnedIff` | guest-adapters/mongo-data.js:139-145 | whatever stands in its header, a framed reply that survives the round trip is returned if and only if its `ok` is true, a number other than zero and NaN, a non-empty string, an object or an array, and is otherwise refused; either way it is consumed |
| `OpMsg.UsualReplies` | guest-adapters/mongo-data.js:139-145 | `{ok: 1.0}` is returned and `{ok: 0.0}` refused |
| `OpMsg.Connection.Ensure` | guest-adapters/mongo-data.js:126 | the buffer loop equals the pull of the specification |
| `OpMsg.Connection.ReadReply` | guest-adapters/mongo-data.js:139-145 | the reply and the new buffer and chunks equal the specified exchange |
| `OpMsg.Connection.Command` | guest-adapters/mongo-data.js:127-147 | the request number advances, the specified request is written, the reply read |
| `Exchange.Run` | guest-adapters/mongo-data.js:51-63 | the reply is the first try's or, when that throws, the second's on a new socket; the request is written at most twice, and twice exactly when the first socket took it and the exchange still failed |
| `OpMsg.CommandExchange` | guest-adapters/mongo-data.js:51-63 | for a command: written twice exactly when the socket in hand took it and gave anything but a reply with a truthy `ok`, a refusal by the server included, and a new socket took it again |
| `Resp.Client.Fill` | conformance/http/fixtures/redis-data.js:65-69 | a read keeps the unread bytes; false only at the end of the connection |
| `Resp.Client.ReadLine` | conformance/http/fixtures/redis-data.js:70-81 | the line is what precedes the first CRLF of the stream, wherever the chunks fall |
| `Resp.Client.ReadN` | conformance/http/fixtures/redis-data.js:82-87 | exactly the first n unread octets |
| `Resp.Client.ReadReply` | conformance/http/fixtures/redis-data.js:88-110 | the result and the unread bytes are the reply function of the byte stream alone: chunking independence |
| `Resp.Client.ReadBulk` | conformance/http/fixtures/redis-data.js:95-101 | a bulk body and the two octets after it, from the stream alone |
| `Resp.Client.ReadItems` | conformance/http/fixtures/redis-data.js:102-108 | the items of an array reply, from the stream alone |
| `Resp.Cmd` | conformance/http/fixtures/redis-data.js:111-118 | the loop prints the specified request |
| `Resp.ReplyRoundTrip` | conformance/http/fixtures/redis-data.js:88-110 | every reply a server writes, simple string, number, bulk, null or array at any depth, is read as what it stands for, leaving what follows |
| `Resp.NullReplies` | conformance/http/fixtures/redis-data.js:96-104 | both null forms are null |
| `Resp.ErrorReply` | conformance/http/fixtures/redis-data.js:93 | an error reply is thrown, and what follows it left |
| `Resp.CommandRoundTrip` | conformance/http/fixtures/redis-data.js:88-121 | `readReply` parses what `cmd` prints back to the arguments, CRLF inside them or not, leaving what follows |
| `Resp.CmdExchange` | conformance/http/fixtures/redis-data.js:44-58 | the same for a RESP command |
| `Idempotency.CollectDone` | rs2-core/src/idempotency.rs:143-149 | the completed entries with their times, each once |
| `Idempotency.SortStampsSorts` | rs2-core/src/idempotency.rs:150 | sorting by completion time keeps the entries |
| `Idempotency.OldestFirst` | rs2-core/src/idempotency.rs:150-153 | the first n of the sorted entries are no younger than the rest |
| `Idempotency.MemIdempotencyStore.Evict` | rs2-core/src/idempotency.rs:142-154 | the eviction loop removes the oldest batch of completed entries and nothing else |
| `Idempotency.MemIdempotencyStore.Sweep` | rs2-core/src/idempotency.rs:136-155 | expired completed entries go, then a batch if still at the cap |
| `Idempotency.MemIdempotencyStore.Begin` | rs2-core/src/idempotency.rs:166-213 | the counter, the sweep, the expiry of the addressed slot, the answer and the registration; every 4096th call, and each on a full table, leaves nothing expired |
| `Idempotency.EvictionIsSmall` | rs2-core/src/idempotency.rs:142-154 | a `begin` evicts at most an eighth of the cap and one more, exactly so many where there are completed entries enough, and only from a table full of entries not yet expired |
| `Idempotency.MemIdempotencyStore.CompleteSlot` | rs2-core/src/idempotency.rs:215-226 | the keys, every other slot and the slot's own payload hash are kept; a present slot from then on answers with the response, or the mismatch its hash calls for |
| `Idempotency.MemIdempotencyStore.AbandonSlot` | rs2-core/src/idempotency.rs:228-234 | every other slot is kept, and the next request for the slot is Fresh |
| `IdempotencyProtocol.CleanedKeeps` | rs2-core/src/idempotency.rs:136-187 | what `begin` cleans away was completed and evicted or expired; nothing in flight goes |
| `IdempotencyProtocol.RegisterBound` | rs2-core/src/idempotency.rs:172-198 | a registration keeps the table within the larger of the cap and the peak in flight |
| `IdempotencyProtocol.BeginAnswers` | rs2-core/src/idempotency.rs:188-212 | `begin` answers exactly what the slot's history, the eviction and the clock call for |
| `IdempotencyProtocol.EveryStateIsSafe` | rs2-core/src/idempotency.rs:136-235 | the invariant (table refines histories, holders apart, bounds) holds in every state of every interleaving |
| `IdempotencyHistory.HeldSlotsAreExclusive` | rs2-core/src/runtime.rs:575-606 | at most one dispatcher holds a slot, and a held slot is in flight in the table under its own hash: no sweep, expiry or eviction frees it |
| `IdempotencyHistory.TableIsBounded` | rs2-core/src/idempotency.rs:136-198 | the table never exceeds the larger of its cap and the most slots ever in flight at once |
| `IdempotencyHistory.PeakIsReached` | rs2-core/src/idempotency.rs:136-198 | that peak is the number in flight in some earlier state |
| `IdempotencyHistory.EvictionTakesTheOldest` | rs2-core/src/idempotency.rs:142-154 | an eviction takes only completed entries, none younger than a completed entry it leaves |
| `IdempotencyHistory.EveryLogIsLawful` | rs2-core/src/idempotency.rs:166-235 | every event of every run is one the per-slot histories allow |
| `IdempotencyHistory.CapturedMeans` | rs2-core/src/idempotency.rs:215-226 | a captured slot was registered by a Fresh, completed once, and not touched since |
| `IdempotencyHistory.ReplayIsLastCompletion` | rs2-core/src/idempotency.rs:199-210 | a Replay is the response of the last completion, inside the window, with compatible hashes, nothing having re-run or evicted the slot since |
| `IdempotencyHistory.InFlightAnswers` | rs2-core/src/idempotency.rs:199-208 | while the slot is in flight a request with another payload hash is told so, and any other is told to wait |
| `IdempotencyHistory.NoRerun` | rs2-core/src/idempotency.rs:166-213 | once captured, the service does not run again for the slot unless the window passed or the entry was evicted |
| `IdempotencyHistory.RetriesReplay` | rs2-core/src/runtime.rs:578-600 | every later attempt inside the window, the slot not evicted, is answered with the captured response |
| `IdempotencyHistory.DropOrphans` | rs2-core/src/runtime.rs:590-605 | a dispatcher cancelled between Fresh and its report orphans the slot |
| `IdempotencyHistory.OrphanIsForever` | rs2-core/src/idempotency.rs:136-141 | an orphaned slot stays in flight for the rest of the run |
| `IdempotencyHistory.OrphanRefuses` | rs2-core/src/idempotency.rs:199-210 | every `begin` on it is refused |
| `IdempotencyHistory.OrphanedIffDropped` | rs2-core/src/runtime.rs:590-605 | in every run a slot is in flight without a holder if and only if a dispatcher holding it was cancelled |
| `IdempotencyHistory.InFlightIsHeld` | rs2-core/src/runtime.rs:575-606 | in a run without a cancellation every slot in flight is held by a dispatcher |
| `Dispatch.Handle` | rs2-core/src/runtime.rs:565-606 | a keyed dispatch runs the service exactly when `begin` answers Fresh, then completes or releases the slot; a slot in flight is refused with a conflict, another payload as a reuse of the key, a completed one answered with the stored response; keys over 256 characters are refused and change nothing |
| `Dispatch.Finishes` | rs2-core/src/runtime.rs:590-605 | registering then finishing a fresh slot records it or leaves no trace |
| `Retry.Delay` | rs2-core/src/retry.rs:127-145 | no sleep exceeds `maxDelayMs`, whatever Retry-After, the backoff or the jitter say |
| `Retry.RetryAfterWins` | rs2-core/src/retry.rs:128-132 | a Retry-After is honoured, up to the cap |
| `Retry.PlainPause` | rs2-core/src/retry.rs:133-139 | without it and without jitter the pause is the base times the multiplier once for each earlier failure, in whole milliseconds, cut at the cap; the first is the base |
| `Retry.JitteredPause` | rs2-core/src/retry.rs:140-144 | full jitter draws from zero up to that pause, and can draw any of it |
| `Retry.RetryRequest` | rs2-core/src/retry.rs:173-210 | unsafe requests, keyed ones without a key and those of a disabled policy are attempted once; otherwise every attempt before the last failed with a listed status or a network error, and the last did not or was the max(1, maxAttempts)th; one bounded sleep between attempts |
| `Retry.LastAttemptIsUnique` | rs2-core/src/retry.rs:183-209 | the policy determines which attempt is the last |
| `Retry.CapturedResponseEndsRetries` | rs2-core/src/runtime.rs:568-609 | retries under a key, whichever attempt, or another caller's, is captured, after failed and busy ones and with responses lost: every later attempt is answered with the captured response, those while it runs are told to wait, and a caller who gets it ends with it |
| `Cron.SplitJoins` | rs2-core/src/scheduler.rs:122 | the comma-separated parts are the pieces between commas |
| `Cron.WordsOfFields` | rs2-core/src/scheduler.rs:186 | fields joined by spaces are read back as they were |
| `Cron.PartReads` | rs2-core/src/scheduler.rs:123-143 | the texts `*`, `*/n`, `a`, `a/n`, `a-b` and `a-b/n` denote the bounds and the step they print, or nothing where these are out of bounds |
| `Cron.NumberDenotes` | rs2-core/src/scheduler.rs:116-153 | a field that is a number denotes that number |
| `Cron.ListDenotes` | rs2-core/src/scheduler.rs:121-149 | a list denotes what one of its parts does |
| `Cron.Progression` | rs2-core/src/scheduler.rs:144-148 | the saturating inner loop yields exactly lo, lo + step, … up to hi |
| `Cron.ParsePart` | rs2-core/src/scheduler.rs:123-148 | one part: refused or its progression |
| `Cron.ParseParts` | rs2-core/src/scheduler.rs:121-149 | the outer loop: refused if any part is malformed, else the union |
| `Cron.ParseField` | rs2-core/src/scheduler.rs:116-153 | a field parses exactly when every part is well formed, to the ascending set its text denotes |
| `CronSearch.ParseDow` | rs2-core/src/scheduler.rs:156-170 | day of week: the denoted set with 7 folded to 0 |
| `CronSearch.ParseCron` | rs2-core/src/scheduler.rs:185-199 | five fields, each well formed, or an error |
| `CronSearch.MatchesMeans` | rs2-core/src/scheduler.rs:202-221 | a parsed schedule matches exactly the dates and times its text denotes, in UTC: minute, hour, month, and day of month or day of week, either one when both are restricted, with the day of the week given by the calendar |
| `CronSearch.DowReads` | rs2-core/src/scheduler.rs:156-170 | a day of week written as a number is that day, and 7 is Sunday like 0 |
| `CronSearch.WeeklyTextMeans` | rs2-core/src/scheduler.rs:185-221 | `minute hour * * weekday` matches that time of that day of the week, and no other |
| `CronSearch.NextOccurrence` | rs2-core/src/scheduler.rs:226-237 | the least matching minute strictly after the input and within 366 days, or none; never none for a perennial schedule, within 1440 minutes for a daily one and 7 days for a day-of-week one |
| `CronSearch.NextIsUnique` | rs2-core/src/scheduler.rs:226-237 | there is one such answer |
| `CronSearch.ParsedInRanges` | rs2-core/src/scheduler.rs:185-199 | what the parser returns is in range and admits something in every field |
| `CronSearch.NeverNoneIffPerennial` | rs2-core/src/scheduler.rs:226-237 | the search succeeds from every instant if and only if the schedule has a day of week, or any day of month, or a month and day that exist every year |
| `CronSearch.BarrenFrom2021` | rs2-core/src/scheduler.rs:226-237 | a schedule that is not perennial has no occurrence within 366 days of 1 March 2021 |
| `CronSearch.NeverMatches` | rs2-core/src/scheduler.rs:202-221 | a schedule that is not perennial and does not admit 29 February matches no minute |
| `CronSearch.LastOfLeapDay` | rs2-core/src/scheduler.rs:226-237 | one that admits it has a last minute on 29 February 2020, found from the minute before and followed by none within 366 days |
| `Calendar.Recurs` | rs2-core/src/scheduler.rs:226-237 | any date but 29 February falls within any 366 consecutive days |
| `Calendar.DayNumberOfDate` | rs2-core/src/scheduler.rs:202-214 | the proleptic Gregorian calendar: stepping day by day agrees with counting days |
| `Calendar.WeekdayIs` | rs2-core/src/scheduler.rs:211-214 | the weekday of every date: 1 January 2024 is a Monday, and the days of the week go round in order |
| `Claims.BucketHolds` | rs2-core/src/scheduler.rs:91-95 | from 1970 on the bucket is the period that holds the instant |
| `Claims.CompositeInjective` | rs2-core/src/scheduler.rs:270 | a composite claim key names one key and one occurrence |
| `Claims.ClaimKeyInjective` | rs2-core/src/runtime.rs:910 | tenants without a bar give different mounts different claim keys |
| `Claims.MemScheduleStore.TryClaim` | rs2-core/src/scheduler.rs:269-280 | expired claims go; the claim wins exactly when its composite is vacant and is then remembered for its time to live |
| `Claims.LosesIffBlocked` | rs2-core/src/scheduler.rs:269-280 | over any sequence of claims, one is refused exactly when an earlier winner of its own occurrence has not run out |
| `Claims.IntervalFiresOnceIff` | rs2-core/src/runtime.rs:849-856 | whatever nodes claim whenever, a bucket is won at most once in the whole run if and only if claims lag by no more than a period, or a period and the lag fit in a minute |
| `Claims.OnePeriodIsTolerated` | rs2-core/src/runtime.rs:851-853 | a claim issued up to one period late is always tolerated |
| `Claims.LateClaimFiresTwice` | rs2-core/src/scheduler.rs:269-280 | a later one wins the bucket a second time |
| `Claims.CronFiresOnceIff` | rs2-core/src/runtime.rs:854 | a cron occurrence is won at most once if and only if claims lag by less than two minutes |
| `ScheduleNode.SchedEntry.DueOccurrence` | rs2-core/src/runtime.rs:819-846 | the due occurrence id and the advanced cursor, of which the next five rows say when and what is handed out |
| `ScheduleTimes.WasArmed` | rs2-core/src/runtime.rs:819-984 | in every run, every entry was last armed or fired at some step, and waits since for what that instant calls for |
| `ScheduleTimes.IntervalFiresIff` | rs2-core/src/runtime.rs:825-831 | a check of an interval mount hands out an occurrence if and only if its interval has passed, by the monotonic clock, since it was last armed or fired; the occurrence is the multiple of the interval that holds the wall clock |
| `ScheduleTimes.IntervalsApart` | rs2-core/src/runtime.rs:825-831 | two occurrences of an interval mount, its tenant not read again between them, are at least the interval apart |
| `ScheduleTimes.CronFiresIff` | rs2-core/src/runtime.rs:833-842 | a check of a mount whose cron comes round every year hands out an occurrence if and only if the cron has matched a minute since it was last armed or fired, and the occurrence is the first such minute |
| `ScheduleTimes.FreshlyArmed` | rs2-core/src/runtime.rs:956-984 | what reconciliation arms waits from that instant on |
| `ScheduleNode.Reconcile` | rs2-core/src/runtime.rs:956-984 | a tenant's keys hold what its mounts arm, the last armable one per path; other tenants are untouched |
| `ScheduleRuns.ArmsLater` | rs2-core/src/runtime.rs:833-842 | what a cron is armed with lies after the clock and, when the search cannot fail, matches |
| `ScheduleRuns.EveryStateIsSafe` | rs2-core/src/runtime.rs:869-934 | the invariant holds in every state of every run of the loop with a clock that does not go back |
| `ScheduleRuns.OccurrencesIncrease` | rs2-core/src/runtime.rs:833-842 | the cron occurrence ids a node produces for a mount strictly increase across fires and re-arms |
| `ScheduleRuns.FiresDoNotOverlap` | rs2-core/src/runtime.rs:901-930 | at most one fire of a mount is running at any time |
| `ScheduleRuns.ReliableCronsFireOnTime` | rs2-core/src/runtime.rs:833-842 | a cron whose search cannot fail is only produced on minutes it matches |
| `ScheduleRuns.LeapDayFiresOffSchedule` | rs2-core/src/runtime.rs:836-838 | for every schedule that only 29 February serves, a run of the loop that fires it on its last minute of that day in 2020 and again 366 days on, on 1 March 2021, which it does not match |
| `ScheduleRuns.AlwaysOnScheduleIff` | rs2-core/src/runtime.rs:833-842 | a cron is fired only on minutes it matches, in every run, if and only if it is perennial or admits not even 29 February |
| `SocketWire.EveryStateIsSafe` | rs2-core/src/sockets.rs:424-451 | the invariant (queue history, one closer, flags) holds in every interleaving of pushes, closes, overflows, session ends and writer steps |
| `SocketWire.WireEndsAtClose` | rs2-server/src/websocket.rs:191-217 | the wire is a prefix of what the queue accepted, a Close only last; at most one Close is ever accepted; the queue never exceeds 256 |
| `SocketWire.NothingFollowsClose` | rs2-server/src/websocket.rs:208-214 | once a Close is written nothing is ever written again |
| `SocketWire.ClosedSocketsAreReleased` | rs2-core/src/sockets.rs:440-451 | by the time a Close is on the wire the socket is no longer registered |
| `SocketWire.LatePushIsRefused` | rs2-core/src/sockets.rs:424-427 | a push called after the flag went up never enqueues and never reports success |
| `SocketWire.QuietClosedSocketIsSettled` | rs2-core/src/sockets.rs:424-451 | with no call under way, a closed socket is released and was told, killed or ended |
| `SocketCalls.PushAnswers` | rs2-core/src/sockets.rs:424-437 | in every run a push answers true exactly when it queued its frame, once, and false exactly when it found the socket closed, or 256 items waiting or the writer gone; then the socket is closed, released and killed |
| `SocketCalls.CloseAnswers` | rs2-core/src/sockets.rs:439-452 | a close answers true exactly when it was the one to raise the flag; the socket is then released, and its code and reason queued, once, unless 256 items were waiting or the writer was gone, and the connection killed |
| `SocketWire.PumpWriter` | rs2-server/src/websocket.rs:196-215 | the writer loop writes the specified prefix of what it receives |
| `SocketWire.WrittenStops` | rs2-server/src/websocket.rs:196-215 | that prefix stops at the first Close or the first failed send, and no sooner |
| `SocketRace.FrameBehindCloseIff` | rs2-core/src/sockets.rs:424-451 | in every run a frame stands behind the Close if and only if its push loaded the flag before a close raised it and enqueued after that close did |
| `SocketRace.FrameQueuedBehindClose` | rs2-core/src/sockets.rs:424-451 | a run in which it does, and the wire does not carry the frame |
| `SocketLimits.Meter.Count` | rs2-core/src/sockets.rs:641-649 | the window test, reset and count |
| `SocketLimits.AtMostTwiceTheRate` | rs2-core/src/sockets.rs:641-656 | in every half-open second at most twice the rate passes the meter |
| `SocketLimits.TwiceTheRateIsReached` | rs2-core/src/sockets.rs:641-656 | at every rate twice the rate is reached |
| `SocketLimits.OnlyBurstsAreRefused` | rs2-core/src/sockets.rs:641-656 | a frame is refused only when the one `rate` frames before it came less than a second earlier |
| `SocketLimits.InFlightStaysUnderCap` | rs2-core/src/sockets.rs:633-672 | with the single reader of a connection, dispatches in flight never exceed the cap |
| `SocketLimits.EveryFlightIsBounded` | rs2-core/src/sockets.rs:633-672 | with k readers they never exceed the cap plus k - 1 |
| `SocketLimits.TwoReadersExceedTheCap` | rs2-core/src/sockets.rs:633-672 | two readers can exceed every cap: the bound rests on there being one |
| `SocketLimits.SocketHub.Start` | rs2-core/src/sockets.rs:540-550 | a socket is registered exactly when its tenant is under the cap |
| `SocketLimits.SocketHub.Remove` | rs2-core/src/sockets.rs:419-421 | a socket is released |
| `SocketLimits.TenantStaysUnderCap` | rs2-core/src/sockets.rs:540-557 | however registrations and releases interleave, no tenant exceeds the cap |
| `LoadGuard.EveryStateIsSafe` | rs2-core/src/runtime.rs:230-272 | the invariant holds in every interleaving with no failed load and no purge, wherever callers are cancelled |
| `LoadGuard.BuiltOnce` | rs2-core/src/runtime.rs:230-272 | then all callers who get an instance get the same one, and the tenant is built at most once and once more for each build lost with its caller |
| `LoadGuard.FailedLoadBuildsTwice` | rs2-core/src/runtime.rs:266-271 | with one more failed load a waiter and a newcomer both build, and return different instances |
| `LoadGuard.PurgeBuildsTwice` | rs2-core/src/runtime.rs:230-272 | with one more purge two callers return different instances |
| `LoadGuard.AlwaysOnceIff` | rs2-core/src/runtime.rs:230-272 | all runs with given numbers of failed loads, purges and lost builds build at most once if and only if all three are zero |
| `LoadGuard.OneInstanceIff` | rs2-core/src/runtime.rs:230-272 | all runs with given numbers of failed loads and purges, whoever is cancelled, serve one instance if and only if both are zero |
| `LoadGuard.LosesAlone` | rs2-core/src/runtime.rs:251-262 | a caller cancelled between its build and the insertion leaves nothing but a build to be made again |
| `Json.LookupPath` | rs2-core/src/listing.rs:42-48 | the walk of a path: nothing where a segment is missing or a non-object intervenes |
| `ListingOrder.IntegersCompareExactly` | rs2-core/src/listing.rs:146-158 | integers compare exactly even where the comparison goes through doubles |
| `ListingOrder.TransitiveIffTame` | rs2-core/src/listing.rs:146-158 | the number comparison orders a set of numbers if and only if no double in it is the rounding of two different integers in it |
| `ListingOrder.SmallIntegersAreTame` | rs2-core/src/listing.rs:144-158 | integers of magnitude up to 2^53 are safe beside any doubles |
| `ListingOrder.LargeIntegersAreNot` | rs2-core/src/listing.rs:146-158 | 2^53 + 1, the double 2^53 and 2^53 break transitivity |
| `ListingOrder.NumbersCompareByValue` | rs2-core/src/listing.rs:146-158 | where integers are doubles, numbers of either kind compare by value |
| `ListingOrder.StringsCompareByCodePoint` | rs2-core/src/listing.rs:135-136 | the first code point where two strings differ decides, a proper prefix first |
| `ListingOrder.TypesAscend` | rs2-core/src/listing.rs:113-168 | missing, null, false, true, numbers, strings, arrays, objects ascend, whatever they hold |
| `ListingOrder.OptionalReverse` | rs2-core/src/listing.rs:128-168 | the cross-type comparison with missing smallest is antisymmetric |
| `ListingOrder.OptionalCompose` | rs2-core/src/listing.rs:128-168 | and transitive on a tame number domain |
| `ListingOrder.CompareRecordsLoop` | rs2-core/src/listing.rs:171-183 | the loop over sort keys: the first that tells two records apart decides |
| `ListingMeaning.RecordsDecide` | rs2-core/src/listing.rs:113-183 | a record compares less exactly when, at the first sort key that tells the two apart, it is below the other ascending or above it descending, by kind, then integers exactly and other numbers as doubles, strings by code point; missing lowest |
| `ListingMeaning.SortedMeans` | rs2-core/src/listing.rs:316 | a listing is sorted exactly when each row precedes all that follow in that order |
| `ListingMeaning.FlippedSwaps` | rs2-core/src/listing.rs:171-183 | turning every direction round swaps the records |
| `ListingMeaning.MissingIsSmallest` | rs2-core/src/listing.rs:161-168 | a record without the field comes first ascending and last descending |
| `ListingOrder.RecordsCompose` | rs2-core/src/listing.rs:171-183 | the multi-key order, ascending or descending, is transitive and keeps strict steps strict |
| `ListingPages.RowsAreTotallyOrdered` | rs2-core/src/listing.rs:316 | with distinct keys and a tame number domain the row order is a strict total order |
| `ListingPages.SortKeeps` | rs2-core/src/listing.rs:316 | where the comparison passes through, sorting gives a strictly sorted arrangement of the same rows |
| `ListingPages.SortedIsUnique` | rs2-core/src/listing.rs:316 | there is only one |
| `ListingPages.AnySortAgrees` | rs2-core/src/listing.rs:306-316 | the sorted listing depends neither on the order the records arrive in nor on the sort used |
| `ListingPages.SortPageProject` | rs2-core/src/listing.rs:311-324 | the page and the total equal the specified sort, skip, take and projection |
| `ListingPages.PagesJoin` | rs2-core/src/listing.rs:311-324 | pages at successive skips, each from its own reading, join up to the sorted projection |
| `ListingPages.EachRecordOnce` | rs2-core/src/listing.rs:311-324 | enough pages give every record's projection exactly once |
| `ListingExists.ListingExistsIff` | rs2-core/src/listing.rs:311-316 | a dataset has a sorted arrangement, and the sort finds it, if and only if no three of its rows are knotted: the first sort key to tell any two apart sees two integers and a double equal to both, and the later keys close the circle |
| `ListingExists.CircleIsKnot` | rs2-core/src/listing.rs:146-183 | three rows that compare in a circle, under any list of sort keys, are knotted |
| `ListingExists.AlwaysListedIffTame` | rs2-core/src/listing.rs:146-158 | every dataset of numbers from a set has a sorted arrangement if and only if no double in the set is the rounding of two different integers in it |
| `ListingExists.LargeIntegersHaveNoListing` | rs2-core/src/listing.rs:146-158 | three rows beyond 2^53 that have none |
| `Projection.Project` | rs2-core/src/listing.rs:188-216 | the insertion loop computes a function of the set of found fields alone, and the scalar-clash branch is never taken |
| `Projection.SelectionGrows` | rs2-core/src/listing.rs:198-216 | inserting one more found path meets no clash and gives the selection of the larger set |
| `Projection.SelectedPathsAgree` | rs2-core/src/listing.rs:185-196 | every selected path looks up the same in the projection as in the record |
| `Projection.OnlySelectedPaths` | rs2-core/src/listing.rs:185-196 | nothing is projected beyond the selected paths |
| `Projection.ProjectionIdempotent` | rs2-core/src/listing.rs:188-196 | projecting twice is projecting once |
| `Projection.FieldsAreASet` | rs2-core/src/listing.rs:188-196 | neither the order of the fields nor their repetition matters |
| `Pick.SeekLoop` | guest-adapters/mongo-data.js:169-173 | the read loop, through own fields and every prototype on the chain |
| `Pick.PutLoop` | guest-adapters/mongo-data.js:175-181 | the write loop, making objects, following the aliases and prototypes it meets, and the setter `__proto__` with its exceptions |
| `Pick.PickDoc` | guest-adapters/mongo-data.js:165-184 | `pick` over objects with prototypes, the shared one included |
| `PickPlain.PrototypeStays` | guest-adapters/mongo-data.js:171-181 | where all prototypes are as they came, a found path that ends at a prototype, or below one, assigns what is there already |
| `PickRefines.PickLift` | guest-adapters/mongo-data.js:165-184 | there `pick` neither throws nor changes a prototype, and comes to the model over own fields alone |
| `PickHeap.PickAllKeeps` | guest-adapters/mongo-data.js:165-184 | for every list of paths: the result holds made objects along its paths and the document's own values where paths ended; the document gains at most inherited functions as fields, and none where no path writes into it |
| `PickAgrees.PickAgreesIff` | guest-adapters/mongo-data.js:171-181 | for a single path the two projections agree on every document with unaltered prototypes if and only if no name in it is inherited or, through `__proto__`, it has no effect |
| `PickAgrees.ListAgreesIff` | guest-adapters/mongo-data.js:165-184 | for a list of paths they agree on every such document if and only if none writes into the document and each outermost path of the list agrees alone |
| `PickAgrees.DocumentStaysIff` | guest-adapters/mongo-data.js:175-181 | `pick` leaves every such document, and the shared prototype, unchanged if and only if no path that ends in an inherited name goes on from where an earlier path ended |
| `PickLists.StopShows` | guest-adapters/mongo-data.js:177-180 | an outermost path with an inherited name before its last: a document whose path is left out |
| `PickLists.LeakShows` | guest-adapters/mongo-data.js:171-181 | one that only inherited names, or a prototype, satisfy: a document where objects or functions are picked that the record does not have |
| `PickLists.WriterDisagrees` | guest-adapters/mongo-data.js:175-181 | a path that writes into the document: the function shows in the result |
| `PickShown.PlainListsAgreeIff` | guest-adapters/mongo-data.js:165-184 | on a document, altered prototypes or not, all lists of paths without inherited names agree with the record projection if and only if no object of it was given a prototype that shows a name |
| `PickShown.PlainListAgrees` | guest-adapters/mongo-data.js:165-184 | on such a document every such list gives the record projection, although the result aliases the document |
| `PickShown.ExtraDisagrees` | guest-adapters/mongo-data.js:169-173 | where a prototype shows a name, the path to it is found and the record has nothing there |
| `PickShared.SharedStaysIff` | guest-adapters/mongo-data.js:175-181 | a path leaves the shared prototype alone on every document, altered prototypes included, if and only if it does not come over plain names to `__proto__` and go on with a name it can assign, or make an object under, there |
| `PickDecoded.DecodedIsUnalteredIff` | guest-adapters/mongo-data.js:96-122 | what the decoder makes of a stored record is a document, and its prototypes are unaltered if and only if no property called `__proto__`, at any depth, holds an object, an array or null |
| `PickDecoded.StoredRecordSpills` | guest-adapters/mongo-data.js:119-181 | a stored record from which picking `a.__proto__.x` assigns `x` to the shared prototype, and on which that path and the plain `a.x` both disagree with the record projection |
| `SyncPlan.PlanConfig` | rs2-cli/src/sync.rs:84-175 | the planned configuration and the changed, pruned and kept paths, or an error, as specified |
| `SyncPlan.PlanWhole` | rs2-cli/src/sync.rs:90-123 | whole mode: source mounts, the target's control mount at its place, target-only mounts |
| `SyncPlan.ScanTarget` | rs2-cli/src/sync.rs:104-121 | the loop over the target's own mounts |
| `SyncPlan.PlanScoped` | rs2-cli/src/sync.rs:124-149 | scoped mode: each wanted mount replaced in place or appended |
| `SyncPlanLaws.PlanIsFixed` | rs2-cli/src/sync.rs:84-175 | in every mode planning from a plan's own output succeeds with the same configuration |
| `SyncPlanLaws.RestOfConfig` | rs2-cli/src/sync.rs:163-170 | apart from the mounts the planned document is the source's in whole mode and the target's in scoped mode |
| `SyncPlanLaws.PlanReports` | rs2-cli/src/sync.rs:104-161 | a path is reported as changed exactly when the plan has an entry there that is not what the target has first, and as pruned or kept exactly when, in whole mode, only the target has a mount there, and not a control mount |
| `SyncPlanLaws.SecondPlanChangesNothingIff` | rs2-cli/src/sync.rs:152-161 | planned again from its own output, a plan reports no change if and only if the mounts it takes from source and target leave no two different entries at one path, stated over source, target and scope |
| `SyncPlanLaws.ControlPathKeepsChanging` | rs2-cli/src/sync.rs:96-161 | in whole mode a source mount at the path of the target's control mount is reported as changed by every later plan |
| `SyncPlanLaws.LaterPlansChangeNothingIff` | rs2-cli/src/sync.rs:152-161 | every later plan succeeds, and reports no change under the same condition as the second |
| `SyncPlanLaws.ControlPathExample` | rs2-cli/src/sync.rs:96-161 | such a source and target |
| `SyncPlanLaws.SlashesDoNotMatter` | rs2-cli/src/sync.rs:49-53 | leading and trailing slashes do not tell mounts apart |
| `SyncPlanLaws.ControlMountIsProtected` | rs2-cli/src/sync.rs:96-103 | whole mode keeps the target's first control mount, unchanged, as the only one, at the smaller of its index and the number of source mounts |
| `SyncPlanLaws.LostIff` | rs2-cli/src/sync.rs:104-121 | without pruning, a mount of the target is served by no entry of the plan if and only if control mounts of the source, and only they, stand at its path, and not the target's own |
| `SyncPlanLaws.ControlPathLosesMount` | rs2-cli/src/sync.rs:104-121 | a source and target where one is lost |
| `SyncPlanLaws.OutOfScopeStays` | rs2-cli/src/sync.rs:125-147 | scoped mode leaves every out-of-scope mount of the target at its index and appends only wanted ones |
| `SyncPlanLaws.ScopedFailsIff` | rs2-cli/src/sync.rs:127-142 | scoped planning fails exactly when a wanted mount is absent from the source or a control mount on either side |
| `SyncSecrets.MissingIff` | rs2-cli/src/sync.rs:185-207 | a place is reported exactly when the plan carries the secret marker there and the target has no non-empty string there |
| `SyncSecrets.NothingMissingFromItself` | rs2-cli/src/sync.rs:177-183 | a configuration lacks no secret of its own |
| `SyncSecrets.RewritePin` | rs2-cli/src/sync.rs:220-233 | every mount pinned to the old name is repointed, and the count returned |
| `SyncSecrets.CodePins` | rs2-cli/src/mirror.rs:424-452 | at most one pin per name, each that of some mount, names without `@` |
| `SyncSecrets.PinsAreSettled` | rs2-cli/src/mirror.rs:424-452 | the repointings of a deploy, one per name, cannot undo or chain into each other |
| `SyncSecrets.RepointIsFinal` | rs2-cli/src/sync.rs:218-233 | repointing keeps paths and control mounts, and doing it again changes nothing |
| `SyncSecrets.RetryIsSafe` | rs2-cli/src/commands_sync.rs:286-298 | a retry that finds its own earlier write, repointed pins included, computes the same configuration and writes nothing |
| `SyncSecrets.DeployedRetryIsSafe` | rs2-cli/src/commands_sync.rs:286-298 | so the retry after any deploy is safe |
| `Ownership.IsOwnedByChild` | rs2-cli/src/sync.rs:259-269 | the search over the mounts |
| `Ownership.YieldsUnlessDeepest` | rs2-cli/src/sync.rs:256-269 | a mount that holds a container yields it exactly when another holds it more deeply |
| `Ownership.ExactlyOneOwner` | rs2-cli/src/sync.rs:256-269 | among distinct mounts every container under some mount is walked by exactly one |
| `Ownership.OwnershipGoesDown` | rs2-cli/src/sync.rs:256-269 | what a nested mount owns it owns to the bottom |
| `TreeWalk.ListAll` | rs2-cli/src/mirror.rs:239-267 | whatever page sizes of at least one entry the server chooses, the listing comes back whole |
| `TreeWalk.Walk` | rs2-cli/src/commands_sync.rs:401-462 | the leaves found are exactly those reached, each once, with right sizes; the containers noted directly below the root are those its listing names; or the status that refused the root |
| `TreeWalk.WalkEntries` | rs2-cli/src/commands_sync.rs:425-462 | the same below any listed container: one that cannot be listed is noted and skipped |
| `TreeWalk.ReachedIff` | rs2-cli/src/commands_sync.rs:440-455 | a leaf is reached exactly when it is visible and every container on the way can be listed |
| `WalkCoverage.VisibleIff` | rs2-cli/src/commands_sync.rs:425-462 | a leaf is visible to a walk exactly when its names are plain and no mount below holds it |
| `WalkCoverage.WalkedOnce` | rs2-cli/src/commands_sync.rs:442-453 | no leaf is visible from two mounts |
| `WalkCoverage.WalkedByTheDeepest` | rs2-cli/src/commands_sync.rs:442-453 | every plain leaf is visible from the deepest mount that holds it |
| `TreeSync.DecidesRightly` | rs2-cli/src/sync.rs:284-306 | with honest sizes the decision is the right one: skip exactly when the target is seen to hold, and serves, equal content; create when it does not list the leaf, or lists and refuses it and the sizes do not tell; update otherwise |
| `TreeSyncLaws.VerdictMeans` | rs2-cli/src/sync.rs:284-306 | which leaves are skipped, created and updated, by what the target lists and serves of them |
| `TreeSync.Transfer` | rs2-cli/src/commands_sync.rs:512-560 | every leaf found on the source is left as the run specifies, until a request fails; no change is counted exactly when the target serves all of them with equal content |
| `TreeSync.DropDatasets` | rs2-cli/src/commands_sync.rs:566-594 | the datasets only the target has go as wholes, until a request fails |
| `TreeSync.Prune` | rs2-cli/src/commands_sync.rs:595-622 | leaves only the target has go, but for schemas and what a dropped dataset took, until a request fails |
| `TreeSync.SyncTree` | rs2-cli/src/commands_sync.rs:468-624 | one run leaves every path as specified, a dry run nothing changed, a failed one each path as it was or as specified; it skips exactly when the source's root is refused, and counts no change exactly when nothing needed doing |
| `TreeSyncLaws.OfferedArrive` | rs2-cli/src/commands_sync.rs:512-560 | after a run every leaf the source's walk finds is there and compares equal |
| `TreeSyncLaws.LostIff` | rs2-cli/src/commands_sync.rs:595-622 | a leaf both sides have is lost if and only if the run prunes, it is no schema, and the target's walk finds it where the source's does not |
| `TreeSyncLaws.UnseenIff` | rs2-cli/src/commands_sync.rs:449-452 | what keeps the source's walk from it is a container the source cannot list |
| `TreeSyncLaws.UnlistableLosesLeaf` | rs2-cli/src/commands_sync.rs:449-452 | a run in which a container refused on the source costs the target a leaf both sides have |
| `TreeSyncLaws.PrunedLeavesCoincide` | rs2-cli/src/commands_sync.rs:564-622 | of the leaves the target's walk finds, pruning keeps exactly those offered, schemas outside dropped datasets, and what other mounts hold |
| `TreeSyncLaws.DeletedIff` | rs2-cli/src/commands_sync.rs:564-622 | a leaf of the target's is deleted if and only if the run prunes, the source does not offer it, and it lies in a dataset only the target shows and is not another mount's, or elsewhere the target's walk finds it and its path does not end in `/.schema.json`; what else only the target has keeps its content |
| `TreeSyncLaws.KeptSchemasAreListed` | rs2-cli/src/commands_sync.rs:566-611 | in a data mount a schema the source lacks is kept only in a dataset the source has |
| `TreeSyncLaws.OthersStay` | rs2-cli/src/commands_sync.rs:468-624 | what the walks do not find, and without pruning what only the target has, is not touched |
| `TreeSyncLaws.ResumedRunFinishes` | rs2-cli/src/commands_sync.rs:468-624 | wherever a failed run stopped, a run that then finishes ends where an unbroken one would have |
| `TreeSyncLaws.SecondRunStays` | rs2-cli/src/commands_sync.rs:468-624 | a second run leaves every leaf as it is |
| `TreeSyncLaws.SecondRunIdleIff` | rs2-cli/src/commands_sync.rs:468-624 | it has nothing to do if and only if the target's walk finds every leaf offered, the target serves each, and it lists no dataset to drop |
| `TreeSyncLaws.SecondRunIdle` | rs2-cli/src/commands_sync.rs:468-624 | so when the target lists every container and serves every leaf, nothing is left but datasets to drop |
| `TreeSyncLaws.UnservedIsRewritten` | rs2-cli/src/commands_sync.rs:530-533 | a leaf that is the same on both sides, and that the target lists and refuses to serve, is written by every run |
| `TreeSyncLaws.SyncTwice` | rs2-cli/src/commands_sync.rs:468-624 | two runs of the code, over whatever the target then answers, leave what one does, and the second counts no change under that condition |

## Left out

- The tenant breaker and concurrency limiter, the router, the pipeline executor, the prebuilt services and the storage adapters: not part of this model.
- HTTP and TLS plumbing, command-line parsing, scaffolding, migration, discovery documents and config schemas: input and output, or large builders with no hard invariant.
- The Worker host (domain registry, durable-object sockets), the other guest adapters' copies of the wire section, path patterns, host matching, hex helpers and the authenticator chain: duplicates or easier members.
- Decoding and rendering of text: strings are their UTF-8 octets, so `TextDecoder`'s replacement of invalid octets and its removal of a byte-order mark are not modelled; neither is the ISO 8601 text of a decoded date.
- Bson.Decode: a negative nested length that moves the cursor back is reported as the fault `Rewinds`, where the code would go on reading earlier octets and may loop.
- Bson.EncodeInto: objects with symbols, getters, prototypes or cycles, and values of unsupported types, which throw, are outside the encoder's subset.
- OpMsg.RequestParses: stated for documents that survive the BSON round trip.
- Idempotency.MemIdempotencyStore.Begin: one clock reading per call, where the code reads the clock for each entry it tests; payload hashes and scopes are opaque strings.
- Retry.Delay: the backoff product is a real number, where the code rounds it to a double before truncating.
- Text of schedules: fields are split at ASCII white space; `every` strings, instants outside the years -9999 to 9999, and intervals of 2^63 milliseconds or more are not modelled.
- Claims.IntervalFiresOnceIff: clock skew between nodes counts as lag, the store reads its clock when it takes its lock, and claims that fail with an error do not claim.
- ScheduleRuns.OccurrencesIncrease: the clock starts in 1970 or later; before 1970 occurrence ids round toward zero and can repeat.
- SocketWire.WireEndsAtClose: a frame counts as on the wire when its send completes; a partly sent frame of an aborted writer, pings and the peer's own frames are not modelled.
- SocketLimits.InFlightStaysUnderCap: the size and expiry checks of `frame` appear as a reader that does not dispatch.
- Selection of sockets by path and user, delivery of replies and event payloads: would only add easy members.
- ListingOrder.OptionalCompose: arrays and objects are ordered by a serialization given as a parameter; negative zero and zero are one real number.
- Parsing of `$select`, `$sort` and metadata sorts: would only add easy members.
- PickAgrees.ListAgreesIff: stated for documents with unaltered prototypes, which `DecodedIsUnalteredIff` describes by their stored records; on others, lists with inherited names are covered by `SharedStaysIff` for the shared prototype only.
- Pick.PickDoc: arrays are values, since nothing writes into one; the functions an array inherits are those of ECMAScript 2023; no function is ever assigned as a prototype; the store's own projection before `pick` is not modelled.
- PickDecoded.DecodedIsUnalteredIff: names are strings of their octets, and how scalars are shown is a parameter.
- SyncPlan.PlanConfig: the plan's list of missing secrets is not part of its result; `MissingIff` states it of the planned and the current configuration.
- SyncSecrets.MissingIff: states the set of places, not the order they are listed in.
- TreeSync.SyncTree: the canonical form of JSON and the server's re-serialization are parameters that agree; a failed request changes nothing; a target leaf's answer is 200 or not throughout a run; deleting a dataset takes all below it that no mount nested there holds; warnings and the tally's other counts are not modelled.
- TreeWalk.Walk: a container's status and listing stay the same during a walk.
- TreeWalk.ListAll: the server's total is the number of entries.
- LoadGuard.BuiltOnce: one tenant name; configuration swaps are outside the theorem.
