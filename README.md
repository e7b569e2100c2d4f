# Laundry OS command mailbox and stats store, in Dafny

A controller submits one pending command ("wash" or "dry" with a duration in
minutes) for a laundry machine. The machine polls for it and must receive each
command at most once. The machine also reports usage statistics, which a
controller reads back. Two backends implement the mailbox:

- **In-process server** (`main.go`). It keeps two maps: `latestByDevice`, one
  command per device where the last write wins, and `lastServedAt`, a
  per-device watermark. A poll hands out the stored command only if its
  `createdAt` is strictly above the watermark, and then raises the watermark
  to that `createdAt`.
- **Serverless handlers over a DynamoDB table** (`laundryStart`,
  `laundryLatest`). A start replaces the device's whole item, which drops any
  `servedAt` tombstone. A poll returns null when the item carries `servedAt`.
  Otherwise it decodes the item and sets `servedAt`, and a failure of that
  write is ignored.

The stats handlers (`laundryUpdateStats`, `laundryGetStats`) overwrite and
read one item per device.

## Layout

- `options.dfy`, `api.dfy`: `Option`; the decoded request body (`Decoded`,
  where `InvalidJson` is a failed decode); the `(status, JSON body)` reply;
  the shared-secret check.
- `go_strings.dfy`: `strings.TrimSpace` with Go's `unicode.IsSpace`.
- `go_strconv.dfy`: `int64` and its wrap-around, `strconv.FormatInt`,
  `strconv.ParseInt(s, 10, 64)`.
- `dynamo.dfy`: attribute values `S`/`N`, items, and a `Table` class whose
  `items` map is changed in place by `PutItem` and `SetAttr`.
- `volatile_mailbox.dfy`: `main.go`. The handlers are pure functions on a
  `State` value. A `Mailbox` class holds the two maps, and its methods update
  them in place. Lemmas over call sequences sit beside them.
- `laundry_start.dfy`, `laundry_latest.dfy`, `laundry_update_stats.dfy`,
  `laundry_get_stats.dfy`: one module per handler. Each has a pure function
  giving the new table and the reply. The table-mutating handlers also have a
  `Handle` method on a `Table`, proved equal to that function.
- `protocol.dfy`: lemmas about how handlers compose, and where the two
  backends differ.

The clock reading (`now`), the shared secret, and every storage outcome are
parameters. Storage outcomes are: GetItem fails, PutItem fails with an error
text, or the tombstone UpdateItem fails.

## Behaviour the code has and a serve-once mailbox would not

A serve-once mailbox is expected to deliver every accepted start exactly
once, to treat the device id the same way on both backends, and to report
times as numbers. The code departs from that in these places, and the model
follows the code:

- `main.go` never trims `deviceId`, while every serverless handler does. An
  id made only of blanks is a valid device in-process and a 400 in the
  serverless start (`Protocol.BlankIdAcceptedOnlyInProcess`).
- `main.go` checks the token as `token != "" && equal`, with no explicit
  empty-secret clause. This accepts the same tokens as the serverless check
  (`Protocol.AuthChecksAgree`).
- In `main.go`, an accepted start whose `createdAt` is at or below the
  device's watermark is never delivered, though the reply said `ok`. This
  happens when the millisecond clock repeats or steps back. The durable
  backend delivers every accepted start (`VolatileMailbox.StaleSubmitNeverDelivered`,
  `Protocol.StaleClockDivergence`), so only it keeps the exactly-once promise
  in this case.
- The durable poll sets `servedAt` with an unconditional write and ignores a
  failure of that write. The same command is then delivered again
  (`Protocol.FailedMarkRedelivers`), so the durable backend delivers at
  least once, not exactly once, when that write fails. A conditional write
  would be needed to close the gap.
- The stats update returns `lastUpdatedAt` as a string, not as an integer.
  It does no range checks, so a negative `numRuns` is stored and read back
  as it is.

## Model

| member | source | states |
|---|---|---|
| `GoStrconv.Wrap64` | laundryLatest/main.go:118 | int64 wrap-around: the result is congruent to the input modulo 2^64 and equals it when it is in range |
| `GoStrconv.WrapAccumulate` | laundryLatest/main.go:118 | one step `n = n*10 + d` in wrapping int64 arithmetic equals the unbounded step wrapped once |
| `GoStrconv.Digits` | laundryStart/main.go:72-73 | FormatInt's digit string is non-empty, all ASCII digits, and has no leading zero |
| `GoStrconv.DigitValueOfDigits` | laundryStart/main.go:72-73 | the decimal value of FormatInt's digits of n is n |
| `GoStrconv.ParseInt` | laundryGetStats/main.go:88-92 | strconv.ParseInt(s, 10, 64): fails on an empty string and on a bare sign, and succeeds only on text that starts with a sign or a digit |
| `GoStrconv.ParseIntAccepts` | laundryGetStats/main.go:88-92 | a non-digit after the first character makes ParseInt fail; an unsigned, `+` or `-` digit string parses iff its value fits in int64, and then to exactly that value (negated for `-`) |
| `GoStrconv.ParseFormatRoundTrip` | laundryUpdateStats/main.go:66 | ParseInt(FormatInt(n)) == Some(n) for every int64 n, negatives included |
| `GoStrings.SpaceRun` | laundryStart/main.go:56 | TrimSpace's forward scan stops at the first non-space, and everything before it is white space |
| `GoStrings.ContentEnd` | laundryStart/main.go:56 | TrimSpace's backward scan stops at the start or just after a non-space, and everything after it is white space |
| `GoStrings.TrimSpaceIsInfix` | laundryLatest/main.go:55 | TrimSpace(s) is the part of s that starts where the leading white space ends and is followed only by white space |
| `GoStrings.TrimSpaceEnds` | laundryLatest/main.go:55 | TrimSpace(s) does not start or end with white space |
| `GoStrings.TrimSpaceEmptyIff` | laundryGetStats/main.go:49-54 | the trimmed id is empty iff the raw id is all white space |
| `GoStrings.TrimSpaceIdempotent` | laundryUpdateStats/main.go:55 | trimming twice is trimming once |
| `Api.Authorized` | laundryLatest/main.go:61-63 | a token is accepted iff it is non-empty and equals the secret; an empty secret accepts nothing |
| `Dynamo.Lookup` | laundryLatest/main.go:65-77 | finds the item iff the key is in the table, and returns that item |
| `Dynamo.SetAttribute` | laundryLatest/main.go:98-107 | `SET servedAt` changes that one attribute of that one item, keeps its other attributes and all other items, and creates the item if it is missing |
| `Dynamo.Table.GetItem` | laundryLatest/main.go:65-74 | a consistent read returns the current item, or a failure |
| `Dynamo.Table.PutItem` | laundryStart/main.go:75-90 | on success the item under the key is replaced whole; on failure the table is unchanged and the error is returned |
| `Dynamo.Table.SetAttr` | laundryLatest/main.go:98-107 | on success the table becomes SetAttribute of the old table; on failure it is unchanged |
| `LaundryStart.Validate` | laundryStart/main.go:50-68 | invalid JSON gives 400 first, then a failed auth gives 401, then a blank id gives 400 "deviceId required", then a type other than wash/dry gives 400 "type must be wash or dry", then a duration <= 0 gives 400 "durationMinutes must be > 0"; a command is accepted iff the auth holds, the trimmed id is non-empty, the type is wash/dry and the duration is > 0; an accepted command carries the trimmed id |
| `LaundryStart.StartItem` | laundryStart/main.go:70-84 | the stored item has exactly deviceId, type, durationMinutes and createdAt, with no servedAt and no token; both numbers read back through ParseInt |
| `LaundryStart.Start` | laundryStart/main.go:50-93 | 200 iff the command is accepted and the put succeeds, and then the device's item is replaced and the reply carries `now`; a put error gives 500 with the error and table name; any non-200 reply leaves the table unchanged |
| `LaundryStart.Handle` | laundryStart/main.go:50-93 | the handler run on a live table leaves the table and returns the reply that `Start` gives |
| `LaundryLatest.DigitRunLength` | laundryLatest/main.go:114-117 | the length of the longest leading run of ASCII digits |
| `LaundryLatest.LeadingValue` | laundryLatest/main.go:112-121 | mustInt64's result is 0 for an empty string or a non-digit first character |
| `LaundryLatest.MustInt64` | laundryLatest/main.go:112-121 | the loop returns the wrapped decimal value of the leading digit run |
| `LaundryLatest.LeadingValueOfAllDigits` | laundryLatest/main.go:112-121 | mustInt64 reads a string of digits whose value fits in int64 as exactly that value |
| `LaundryLatest.LeadingValueOfFormatInt` | laundryLatest/main.go:112-121 | mustInt64(FormatInt(n)) == n for 0 <= n <= max int64 |
| `LaundryLatest.LeadingValueOfNegative` | laundryLatest/main.go:112-121 | mustInt64 reads the text of a negative number as 0 |
| `LaundryLatest.DecodeCommand` | laundryLatest/main.go:84-94 | the command carries the requested id; type, duration and createdAt come from a string or number attribute and default to "" and 0 when it is missing or of another kind; a number stored as plain digits within int64 is read back exactly (partner: `Protocol.DecodeStartItem`) |
| `LaundryLatest.Poll` | laundryLatest/main.go:54-110 | a blank id gives 400 before auth gives 401; a get error gives 500 "get failed" and leaves the table alone; otherwise 200, carrying a command iff the item exists without servedAt; the command is decoded from the item under the trimmed id; the table changes only by tombstoning that item, and only when a command is returned and the write succeeds |
| `LaundryLatest.Handle` | laundryLatest/main.go:54-110 | the handler run on a live table (calling MustInt64 and SetAttr) leaves the table and returns the reply that `Poll` gives |
| `LaundryUpdateStats.StatsItem` | laundryUpdateStats/main.go:65-77 | the stored item has exactly deviceId, totalSpent, numRuns and updatedAt, with no token; numRuns and updatedAt read back through ParseInt |
| `LaundryUpdateStats.Update` | laundryUpdateStats/main.go:49-87 | invalid JSON gives 400, then auth gives 401, then a blank id gives 400; with no range checks, 200 iff these pass and the put succeeds; the item is then replaced whole and lastUpdatedAt is the stored updatedAt text; a put error gives 500; non-200 replies leave the table unchanged |
| `LaundryUpdateStats.Handle` | laundryUpdateStats/main.go:49-87 | the handler run on a live table leaves the table and returns the reply that `Update` gives |
| `LaundryGetStats.GetStats` | laundryGetStats/main.go:48-97 | a blank id gives 400 before auth gives 401; a get error gives 500; a missing item gives 404; a bad totalSpent gives 500 "float conversion failed" before a bad numRuns gives 500 "int conversion failed"; on 200 the reply carries the trimmed query id, the stored totalSpent and the parsed numRuns (0 when it is absent); the table is only read |
| `VolatileMailbox.Submit` | main.go:48-88 | a wrong method gives 405, then invalid JSON 400, then auth 401, then an empty id 400 "deviceId required", then a type other than wash/dry 400 "type must be wash or dry", then a duration <= 0 400 "duration must be greater than 0 minutes"; 200 iff the auth holds, the id is non-empty (not trimmed), the type is wash/dry and the duration is > 0; the command is then stored under its id with createdAt = now and an empty token, and lastServedAt and other devices are unchanged; rejections change nothing |
| `VolatileMailbox.Take` | main.go:90-125 | a wrong method gives 405, then an empty id 400, then auth 401; a 200 reply carries the stored command iff lastServedAt (default 0) < createdAt, and the watermark then becomes that createdAt; otherwise null and nothing changes; the commands are never changed and no watermark decreases |
| `VolatileMailbox.Mailbox.constructor` | main.go:27-31 | the server starts with both maps empty |
| `VolatileMailbox.Mailbox.StartMachine` | main.go:48-88 | updating the maps in place gives the state and reply of `Submit` |
| `VolatileMailbox.Mailbox.GetLatest` | main.go:90-125 | updating the watermark in place gives the state and reply of `Take` |
| `VolatileMailbox.WatermarkNeverDecreases` | main.go:118-123 | over any sequence of calls, lastServedAt[d] never decreases |
| `VolatileMailbox.ServeOnce` | main.go:118-123 | two consecutive polls for one device never both return a command |
| `VolatileMailbox.StepKeepsSilent` | main.go:112-123 | a call that does not submit for d leaves an undeliverable d undeliverable and hands it nothing |
| `VolatileMailbox.SilentWithoutSubmit` | main.go:112-123 | with nothing pending for d and no submit for d, no call in a sequence delivers to d |
| `VolatileMailbox.AtMostOnceWithoutSubmit` | main.go:118-123 | over any call sequence with no submit for d, at most one poll delivers to d |
| `VolatileMailbox.FreshSubmitIsDelivered` | main.go:80-85 | an accepted start above the watermark is returned by the next authorised poll, with createdAt = now and no token |
| `VolatileMailbox.StaleSubmitNeverDelivered` | main.go:118 | an accepted start at or below the watermark is never delivered before the next submit for that device |
| `Protocol.DecodeStartItem` | laundryLatest/main.go:84-94 | the poll decodes the start handler's item back to the submitted type, duration and createdAt, for a non-negative clock |
| `Protocol.StartThenPollDelivers` | laundryStart/main.go:75-84 | after an accepted start, the next authorised poll of the same trimmed id returns that command, even if the device was served before |
| `Protocol.ServedOnceWhenMarked` | laundryLatest/main.go:79-82 | after a delivering poll whose tombstone write succeeded, the next poll of that device returns no command |
| `Protocol.FailedMarkRedelivers` | laundryLatest/main.go:98-109 | a failed tombstone write does not change the reply, and the next poll returns the same command again |
| `Protocol.UpdateThenGetRoundTrip` | laundryUpdateStats/main.go:65-77 | a stats write, then a read of the same trimmed id, returns the id, the written totalSpent and exactly the written numRuns |
| `Protocol.UpdateDoesNotMerge` | laundryUpdateStats/main.go:69-77 | after a stats write, no attribute other than the four written ones remains in the item |
| `Protocol.AuthChecksAgree` | main.go:60 | main.go's token test accepts exactly the tokens the serverless test accepts |
| `Protocol.BlankIdAcceptedOnlyInProcess` | main.go:65-68 | a blank deviceId is accepted by main.go and rejected with 400 by the serverless start |
| `Protocol.StaleClockDivergence` | main.go:118 | with createdAt at the watermark, the in-process poll returns null while the durable poll returns the command |

## Left out

- HTTP and Lambda plumbing: `writeJSON`, `writeErr`, `resp`, headers, the `main` functions and routing. Replies are a status and a JSON body value.
- JSON decoding and encoding: a body is either `InvalidJson` or an already decoded record. Values the decoder rejects (a fractional or out-of-range duration) count as invalid JSON.
- The DynamoDB client: the table is a map. Failures are inputs. A failed PutItem or UpdateItem is taken to have had no effect.
- Concurrency: `sync.Mutex` and the durable poll's race between concurrent read-then-write calls. Calls are modelled one after another only.
- The constant-time behaviour of `subtle.ConstantTimeCompare`: only its result (equality) is modelled.
- `time.Now()` and environment variables (`SHARED_SECRET`, `TABLE_NAME`, `PORT`): these are parameters.
- Go strings are byte strings, and TrimSpace and mustInt64 decode them as UTF-8. Here strings are sequences of code points, so invalid UTF-8 is not modelled.
- Go's `int` is taken to be 64 bits wide, so `int(mustInt64(…))` is the identity.
- LaundryGetStats.GetStats: reports totalSpent as the stored number text, not as the float64 that ParseFloat yields. Whether ParseFloat accepts that text is an input (`floatParses`), because floating point is not modelled.
- LaundryUpdateStats.Update: takes totalSpent as the text `FormatFloat(totalSpent, 'f', 2, 64)` gives, since floating-point formatting is not modelled.
