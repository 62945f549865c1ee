# Key-value store with a transaction log — Dafny model

This project models the sequential core of a single-node key-value store
whose mutations are recorded in a transaction log that can be replayed to
rebuild the store:

- **the in-memory store** (`storage/in_memory_db.go`): `NewInMemoryDB`,
  `GetAll`, `Get`, `Upsert` and `Delete` over an immutable `map<string,string>`,
  with their two distinct "missing key" errors. `Get` reports the sentinel
  `ErrorNoSuchKey` ("no such key"). `Delete` reports a fresh `errors.New("key not found")`,
  which is never identical to the sentinel;
- **the event model** (`storage/logger.go`): the `EventType` codes (0 skipped,
  Delete = 1, Put = 2), the `Event` record with a 64-bit unsigned sequence,
  the events `WritePut`/`WriteDelete` submit, the writer's 1, 2, 3, … numbering,
  and the folding of events onto the store during recovery;
- **the log's text format**, as the logger tests assert it: one line per event,
  `sequence TAB type TAB key TAB value`, and a reader for it, with a write-then-read
  round trip;
- **the handlers** (`storage/handler.go`): each request is one step of a state
  machine over (store, submitted events) with an abstract status
  (Ok / NotFound / InternalError).

Modules: `Results` (Option/Result), `KvStore`, `Events`, `LogFormat`, `Handler`,
and `Scenarios`, which holds the concrete runs from the tests.

The central theorem is `Handler.ReplayReproducesStore`. Suppose every body read
succeeds. Then, after any sequence of requests, the submitted events, numbered
as the writer numbers them and replayed onto an empty store, rebuild exactly
the live store. `Handler.TruncatedUpsertDiverges` shows what breaks it.
When a body read fails, the store is still upserted with the partial body,
but nothing is logged.

The delete handler has a NotFound branch for the store's sentinel error
(storage/handler.go:74-76), which shows that a missing key was meant to answer
NotFound. `Delete` returns a different error ("key not found"), so that branch
never runs and the request answers InternalError. The model follows the code as
written and also proves the corrected check (see Findings).

## Model

| member | source | states |
|---|---|---|
| KvStore.NewInMemoryDB | storage/in_memory_db.go:16-18 | construction never fails and the new store holds no key: every `Get` fails with the sentinel |
| KvStore.GetAll | storage/in_memory_db.go:21-30 | always succeeds; the snapshot has exactly the store's keys, and each maps to what `Get` returns for it |
| KvStore.CopyStore | storage/in_memory_db.go:25-29 | the entry-by-entry copy loop, visiting keys in any order, yields a map equal to the store |
| KvStore.Get | storage/in_memory_db.go:33-44 | succeeds exactly when the key is present, returning its stored value; otherwise fails with the `ErrorNoSuchKey` sentinel |
| KvStore.Upsert | storage/in_memory_db.go:47-53 | never fails; afterwards `Get(key)` returns the new value, the key set gains the key, and every other key reads as before |
| KvStore.Delete | storage/in_memory_db.go:56-65 | fails exactly when the key is absent, with "key not found", leaving the store unchanged; otherwise removes only that key; either way a later `Get(key)` fails with the sentinel |
| KvStore.DeleteErrorIsNotSentinel | storage/in_memory_db.go:60-62 | the error `Delete` returns for a missing key is not `ErrorNoSuchKey` and its text differs |
| KvStore.UpsertLastWriteWins | storage/in_memory_db_test.go:86-119 | after two upserts of one key, `Get` returns the second value |
| KvStore.DeleteThenDeleteAgain | storage/in_memory_db_test.go:123-157 | insert then delete succeeds; deleting again fails with "key not found"; `Get` then fails with the sentinel |
| Events.EventTypeOf | storage/logger.go:5-9 | a code names an event type exactly when it is 1 or 2, and the type's code is that byte |
| Events.CodeRoundTrip | storage/logger.go:5-9 | decoding an event type's code gives the type back, and no type is encoded as 0 |
| Events.Next | storage/logger.go:20 | the next sequence number is the previous plus one, reduced modulo 2^64 as a `uint64` increment is |
| Events.Sequence | storage/file_transaction_logger_test.go:94-98 | the writer keeps the queue's length and order and every field except the sequence; the i-th event gets last+1+i (mod 2^64) |
| Events.SequencesContiguous | storage/file_transaction_logger_test.go:94-98 | without wrap-around the numbers are last+1, last+2, … and strictly increasing; a fresh writer starts at 1 |
| Events.RunWriter | storage/file_transaction_logger_test.go:38-40 | draining the queue one event at a time produces exactly `Sequence`'s numbering and leaves the counter at last+n |
| Events.ApplyEvent | storage/file_transaction_logger_test.go:142-154 | a Put makes `Get(key)` return its value without error; a Delete succeeds exactly when the key was present and leaves it absent; other keys are untouched |
| Events.ReplayAppend | storage/file_transaction_logger_test.go:116-154 | a log with one more event replays exactly when the shorter log does and the new event applies cleanly after it, and the result is that event applied to the shorter replay |
| Events.ReplayIgnoresSequence | storage/file_transaction_logger_test.go:116-154 | numbering a queue does not change whether or to what it replays |
| LogFormat.Digits | storage/file_transaction_logger_test.go:75-78 | a number is written as a non-empty string of decimal digits |
| LogFormat.ParseNat | storage/file_transaction_logger_test.go:83 | a string reads as a number exactly when it is non-empty and all decimal digits |
| LogFormat.DigitsRoundTrip | storage/file_transaction_logger_test.go:83 | reading back a number's decimal spelling gives the number |
| LogFormat.Split | storage/file_transaction_logger_test.go:75-83 | splitting on a separator yields separator-free pieces whose join is the input |
| LogFormat.SplitJoin | storage/file_transaction_logger_test.go:75-83 | splitting a join of separator-free pieces gives the pieces back |
| LogFormat.ParseLine | storage/file_transaction_logger_test.go:81-88 | a line that reads as an event has exactly four tab-separated fields: the first is the decimal sequence number, the second the decimal type code, and the key and value are the third and fourth |
| LogFormat.LineRoundTrip | storage/file_transaction_logger_test.go:75-83 | an event with whitespace-free key and value reads back from its line unchanged |
| LogFormat.DeleteLineHasEmptyValue | storage/file_transaction_logger_test.go:117-119 | a Delete's line is `sequence TAB 1 TAB key TAB` with an empty last field, and it reads back with an empty value |
| LogFormat.Lines | storage/file_transaction_logger_test.go:62-72 | a log yields one line per event, in order |
| LogFormat.ParseLines | storage/file_transaction_logger_test.go:81-88 | a successful read yields one event per line, each the reading of its line |
| LogFormat.ParseLog | storage/file_transaction_logger_test.go:62-88 | a successful read of a text ending in a newline yields one event per line |
| LogFormat.LogRoundTrip | storage/file_transaction_logger_test.go:62-100 | writing a log and reading it back with this model's reader yields the same events in the same order with the same fields |
| Handler.Start | storage/handler.go:17-19 | a handler starts over an empty store with nothing logged |
| Handler.HandleGet | storage/handler.go:21-36 | changes nothing; answers NotFound exactly when the key is absent, and otherwise Ok carrying the value it looked up |
| Handler.HandleGetAll | storage/handler.go:38-47 | changes nothing; answers Ok with a snapshot holding exactly the store's entries |
| Handler.HandleUpsert | storage/handler.go:49-67 | the key is set to whatever body was read; a complete body appends exactly one Put with that key and body and answers Ok; a failed read appends nothing and answers InternalError |
| Handler.HandleDelete | storage/handler.go:69-84 | a present key is removed and exactly one Delete for it is appended; a missing key changes nothing and is not answered Ok |
| Handler.DeleteMissingIsInternalError | storage/handler.go:73-80 | as written, deleting a missing key answers InternalError, and no delete ever answers NotFound |
| Handler.DeleteMissingIsNotFoundIntended | storage/handler.go:74-76 | with a check that recognises the store's own error, deleting a missing key answers NotFound |
| Handler.Step | storage/handler.go:21-84 | reads change nothing; a mutation appends one event when it answers Ok and none otherwise; earlier events are never rewritten; a failed delete changes nothing |
| Handler.StepKeepsConsistent | storage/handler.go:59-83 | a request whose body was read completely keeps the store equal to the replay of the log |
| Handler.RunKeepsConsistent | storage/handler.go:59-83 | a run of such requests keeps the store equal to the replay of the log |
| Handler.ReplayReproducesStore | storage/handler.go:59-83 | from the start, the numbered submitted events replay onto an empty store to exactly the live store |
| Handler.TruncatedUpsertDiverges | storage/handler.go:53-65 | after a failed body read, the log still replays to the old store, so the state stays consistent exactly when the key already held the partial body |
| Handler.TruncatedUpsertFromStart | storage/handler.go:53-65 | from the start, a failed body read leaves a key in the store that the empty log does not rebuild |
| Scenarios.LinesOfWriteTest | storage/file_transaction_logger_test.go:94-98 | the three expected events are written as the lines `1 2 alpha 1`, `2 2 beta 2`, `3 1 alpha` (tab-separated, empty value) |
| Scenarios.WriteThreeEvents | storage/file_transaction_logger_test.go:37-101 | Put(alpha,1), Put(beta,2), Delete(alpha) are numbered 1, 2, 3 and written as three lines that this model's reader reads back as the expected records |
| Scenarios.LinesOfReplayTest | storage/file_transaction_logger_test.go:116-120 | the three pre-written events are written as the test's three lines |
| Scenarios.TextBIsFormatted | storage/file_transaction_logger_test.go:116-121 | writing those events produces the test's file text |
| Scenarios.ParsePrewrittenLog | storage/file_transaction_logger_test.go:116-121 | the test's file text reads back as Put(foo,bar) 1, Put(bob,alice) 2, Delete(foo) 3 |
| Scenarios.ReplayPrewrittenLog | storage/file_transaction_logger_test.go:142-154 | replaying those events onto a new store leaves foo absent (sentinel error) and bob holding alice |
| Scenarios.HandlersProduceLogB | storage/handler.go:49-84 | serving the same three requests from the start submits exactly those events and leaves the store as {bob: alice} |

## Left out

- Locking (`sync.RWMutex`): every store operation is one atomic step; concurrency is not modelled.
- `storage/postgres_transaction_logger.go`: SQL calls, connection setup, goroutines and channels. Only its `WriteDelete`, which submits an empty value, informs `Events.WriteDelete`.
- `main.go`: HTTP routing and server start-up.
- HTTP specifics of the handlers: `mux.Vars`, `http.Error`, response writing and `fmt.Fprint` formatting. A reply keeps only its status and the data the handler looked up.
- Channel mechanics: buffer sizes, backpressure, the `Err()` error stream, the `Run` goroutine, and closing channels.
- The file logger and `InitializeTransactionLogger` are not part of this model. The line format and numbering follow what the tests assert. The writer's counter is assumed to start at 0 and to increment as a `uint64`.
- Events.Replay: how recovery treats a Delete of an absent key is not modelled; replay requires `ReplayDefined`.
- Handler.HandleGet: Go's `GetHandler` prints the `*string` that `Get` returns (storage/handler.go:35), so the response body is a pointer address, not the stored value; the model's payload is the looked-up value itself.
- LogFormat.ParseLine: a strict tab-splitting reader, not `fmt.Sscanf`. It accepts an empty value field and rejects type codes other than 1 and 2. Round trips are stated only for whitespace-free keys and values, because a `%s` verb stops at whitespace.
- LogFormat.LogRoundTrip: holds for this model's reader only. The test's `fmt.Sscanf` with `%d\t%d\t%s\t%s` (storage/file_transaction_logger_test.go:83) cannot return an empty last field: a `%s` at end of input fails with an unexpected-EOF error. So the test's own reader rejects a Delete line such as `3\t1\talpha\t`, whose `Value: ""` it expects at storage/file_transaction_logger_test.go:97. The empty-value cases of `LogRoundTrip`, `DeleteLineHasEmptyValue` and `Scenarios.WriteThreeEvents` are about this model's reader, not the test's.
- LogFormat.ParseLog: stricter than the test's `bufio.Scanner` loop (storage/file_transaction_logger_test.go:63-67) in two ways. It rejects a text whose last line has no terminating newline, which the Scanner would still return as a line. It also keeps a trailing `\r` inside the last field, which the Scanner strips. Both cases lie outside what `FormatLog` writes, since every line it writes ends in a bare newline. So `LogRoundTrip` is unaffected, but reading a file that another writer produced is not modelled.
- The expectation that logger writes reach the store (storage/file_transaction_logger_test.go:162-185): no code shown does that.
- `Get`'s pointer result is modelled as the value itself. Errors that the in-memory store never produces are not modelled. These are an error from `GetAll` and a non-sentinel error from `Get`.
- Handler.HandleDelete: for a missing key its contract says only "not Ok". The exact status depends on the error check and is pinned by `DeleteMissingIsInternalError` and `DeleteMissingIsNotFoundIntended`.

## Findings

| source | as written | input that shows it | evidently intended | confidence | as-written member | corrected member |
|---|---|---|---|---|---|---|
| storage/handler.go:74 | the delete handler answers NotFound only when `errors.Is(err, ErrorNoSuchKey)`, but `Delete` returns a fresh `errors.New("key not found")` (storage/in_memory_db.go:61), so that branch is dead | DELETE of any key absent from the store answers InternalError | deleting a missing key answers NotFound, as reading one does | medium; not executed | Handler.DeleteMissingIsInternalError | Handler.DeleteMissingIsNotFoundIntended |

The handlers take the error check as a parameter. `SentinelOnly` is the check
as written; `AnyMissingKey` is the corrected one. Every state-machine property is
proved for both checks, including `ReplayReproducesStore`. They differ only in
the status of a failed delete.
