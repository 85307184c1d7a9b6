# Verified model of the log pipeline

This project models the Logarithm logging system and proves properties of the model. Logs arrive in compressed OTLP
requests on a durable stream, a consumer batches them, a worker pool turns them into rows of a column store, a copy of
every log goes to a live tail that ends in the browser, and the database rolls the rows up into metrics. A load
generator drives the whole. `dafny verify dfyconfig.toml` checks everything.

## What is modelled

| File | Subject |
|---|---|
| `Delivery.dfy`, `Consumer.dfy`, `Redelivery.dfy` | The broker, the channel, the batching loop and its flush as a step machine; the loop and the flush as methods that are proved to follow it; what can still happen to a message. |
| `WorkerPool.dfy` | Splitting a batch, the job channel, the workers, the wait group, panics, and the flush of the shared batch, under every interleaving. |
| `Process.dfy` | Decompression buffers and their cleanup, and the loop over messages. |
| `Flatten.dfy`, `Unflatten.dfy` | Flattening with recycled scratch slices that the published record aliases, and the way back. |
| `Columns.dfy`, `Storage.dfy` | The fifteen columns, the pooled batches, and both ways of inserting. |
| `Handler.dfy`, `Pipeline.dfy`, `Losses.dfy` | The batch handler on the real appender, the worker program that joins consumer and handler, and exactly which acknowledged deliveries are lost. |
| `MsgPack.dfy`, `MsgPackSkip.dfy`, `FlatLogCodec.dfy`, `FlatLogRecord.dfy` | The MessagePack codec of the flat log record: formats, skipping and reading objects, specification, and the generated methods on a mutable record. |
| `LiveTailPublisher.dfy`, `LiveTail.dfy`, `Browser.dfy`, `LogRing.dfy` | From the publisher's pooled buffers through the drop-oldest channel and the websocket to the objects the browser decodes, and its ring. |
| `Attack.dfy`, `FileNames.dfy` | The load generator's channels and workers, and its search for a free file name. |
| `Rollup.dfy` | The two levels of metrics kept by the database. |
| `Seqs.dfy`, `Options.dfy`, `Buffers.dfy`, `LogData.dfy` | Sequences, optional values, buffers, and rows, used by the others. |

Runs are sequences of inputs; `Reaches` says that a state is reached by inputs each of which was enabled when it
happened, so that a theorem about `Reaches` speaks of every run. Goroutines that share channels are machines whose steps
are the atomic actions of Go's channels, mutexes and wait groups. Code that works on its own objects is a class whose
methods are proved against functions on values.

## Findings

* An acknowledged delivery can be lost, that is, neither fully stored nor published to the dead-letter stream. This
  happens if and only if the handler and then the dead-letter call failed on it, or the handler returned nil and its
  payload does not decode, or the handler returned nil, the request has rows, and the job panicked before it had appended
  all of them (`Losses.LostExactlyWhen`). A request that decodes and holds no record has no row to lose. Each cause is
  shown by a run (`Losses.FailedDeadLetterLoses`, `Losses.UndecodableLoses`, `Losses.PanicLoses`).
* The pages of the browser never find the resource attribute keys: the encoder writes `resAttrkeys`, with a lower-case k,
  under which the decoded object has them, and the pages read `resAttrKeys`, which is undefined. The detail page therefore shows no resource attribute (`Browser.DialogShows`,
  `Browser.ResourceAttributeVanishes`). A table of names shows all sixteen fields of every record exactly if it has the
  names on the wire (`Browser.AllFieldsSeenExactlyWhen`). Times arrive in whole microseconds
  (`Browser.NanosecondsVanish`).
* With a delivery limit of 0 a message can be dead-lettered twice; with every other limit it cannot
  (`Redelivery.NeverTwiceExactlyWhen`). A negative limit is stored as an unsigned number, which turns dead-lettering off
  (`Delivery.UnlimitedNeverDeadLetters`).
* `DelayCalculator` converts the delivery count to a signed integer; of all 64-bit counts only 2^63 makes it index out of
  range (`Delivery.DelayPanics`). The consumer never counts that far; the calculator would have to be called directly.
* A record with a string or list of 2^32 elements or more is not what decoding its encoding yields: the limit is exact
  (`FlatLogCodec.RoundTripExactly`).
* The live-tail callback's final send waits exactly if the channel has no buffer and the reader is not at it
  (`LiveTail.FinalSendWaitsExactly`).
* `GenerateFileName` can fail for a non-empty name. For a plain name it fails exactly if the name denotes the folder or
  its parent and the entries are just its numbered names (`FileNames.PlainTakenExactlyWhen`); `.` in a folder that holds
  just `1.` is an example (`FileNames.DotMayFail`). A name with a slash is looked up in a subfolder while the number of
  tries comes from the folder, so it fails exactly if the subfolder holds all names tried
  (`FileNames.AllTakenExactlyWhen`); `a/b` fails if `a` is the only entry and holds `b` and `b1`
  (`FileNames.SubfolderMayFail`).
* Without a worker the load generator's dispatcher waits for ever unless the context ends (`Attack.StuckExactlyWhen`). The
  configuration does not lead there: it replaces a worker count of 0 or less (load_generator/config/config.go:132-139).
* The publisher is modelled for every queue size. The configuration refuses one of 0 or less
  (backend/internal/config/config.go:135), so that the hand-off without a queue concerns direct callers only.

## Model

| member | source | states |
|---|---|---|
| `Delivery.AckMeans` | backend/internal/transport/nats.go:245-276 | In every run a delivery is acknowledged only after the handler was called with a batch holding it, with the data and headers of that batch's messages, and no other handler call came between; and either the handler returned nil or the count had reached the limit and the dead-letter callback was called with the delivery's own data and headers just before. |
| `Delivery.SettledExactlyOnce` | backend/internal/transport/nats.go:201-295 | In every run the deliveries the loop settles, then the batch, then the channel are the accepted deliveries in order, no delivery is accepted twice, every delivery handled is acknowledged exactly once, positively or negatively, and what is batched or left in the channel at shutdown never is, by loop or callback. |
| `Delivery.RefusedNakedOnce` | backend/internal/transport/nats.go:204-212 | Every delivery the callback refuses gets exactly one negative acknowledgement and no positive one; what is batched or left in the channel gets neither. |
| `Delivery.Bounds` | backend/internal/transport/nats.go:201-295 | The channel never holds more than twice the batch size, the batch stays below its size between steps, and every handled batch has between one and max(1, maxBatch) messages. |
| `Delivery.FailingMessage` | backend/internal/transport/nats.go:245-271 | The calls made for a message whose handler always fails are exactly the script of delayed negative acknowledgements for deliveries 1, 2, ..., ended by dead-lettering and acknowledging delivery maxDeliver; there are never more deliveries than that. |
| `Delivery.ScriptShape` | backend/internal/worker/worker.go:209-220 | That script has one call per delivery and one acknowledgement at the end; its only dead-letter call is for delivery maxDeliver; with a sorted backoff list its delays never shrink. |
| `Delivery.EachIsAnswered` | backend/internal/transport/nats.go:245-276 | In every run each delivery of a handled batch is acknowledged after nil; after a failure it is asked for again in 30 seconds if its metadata cannot be read, dead-lettered and acknowledged from the limit on, and otherwise asked for again after the delay for its count. |
| `Delivery.StoppedIsEmpty` | backend/internal/transport/nats.go:282-285 | When the loop has stopped nothing is left in its batch. |
| `Delivery.DeadLetteredOnce` | backend/internal/transport/nats.go:258-266 | With a positive limit, whatever the handler does, at most one dead-letter call is made for a message in a run, and it is for delivery number maxDeliver. |
| `Redelivery.NeverTwiceExactlyWhen` | backend/internal/transport/nats.go:258-266 | That no run makes two dead-letter calls for one message holds if and only if the delivery limit is not 0. |
| `Redelivery.DeadLetteredTwice` | backend/internal/transport/nats.go:258-266 | With a limit of 0, a run in which a message redelivered before its acknowledgement arrives is dead-lettered twice. |
| `Redelivery.CanReachDeadLetter` | backend/internal/transport/nats.go:245-271 | From every state of a run in which the loop is running and the broker may deliver a message again, the run can be continued so that the message, failing each time, reaches its dead-letter call. |
| `Delivery.UnlimitedNeverDeadLetters` | backend/internal/transport/nats.go:195-195 | With a negative delivery limit no run ever dead-letters a message. |
| `Delivery.DelayPanics` | backend/internal/worker/worker.go:209-220 | The delay calculator's index is out of range if and only if the delivery count is 2^63. |
| `Delivery.DelayOfDelivery` | backend/internal/worker/worker.go:209-220 | Delivery k waits for the k-th delay of the list, and for its last one when the list has run out. |
| `Delivery.DelaysGrow` | backend/internal/worker/worker.go:209-220 | With a sorted backoff list a later delivery never has a shorter delay. |
| `Consumer.NatsJSConsumer.FlushBatch` | backend/internal/transport/nats.go:222-279 | The flush with its three loops makes exactly the calls of the machine's flush, in order, and leaves the batch empty. |
| `Consumer.NatsJSConsumer.Receive` | backend/internal/transport/nats.go:289-294 | Taking a delivery flushes exactly when the batch has become full. |
| `Consumer.NatsJSConsumer.OnMessage` | backend/internal/transport/nats.go:204-212 | The broker callback stores the delivery at the end of the channel or refuses it with one negative acknowledgement, and changes nothing else. |
| `Consumer.NatsJSConsumer.Select` | backend/internal/transport/nats.go:281-297 | Every case of the loop's select is the machine's step. |
| `Consumer.NatsJSConsumer.ConsumeLogs` | backend/internal/transport/nats.go:198-298 | The loop ends in the state the machine's run reaches, whatever happens around it. |
| `Consumer.RunReaches` | backend/internal/transport/nats.go:198-298 | The states the loop ends in are reachable ones, so the whole-run theorems apply to it. |
| `WorkerPool.SplitMessages` | backend/internal/worker/worker.go:147-173 | As many intervals as workers but no more than messages; they tile the batch in order, none is empty, sizes differ by at most one and longer ones come first. |
| `WorkerPool.PartsInOrder` | backend/internal/worker/worker.go:104-121 | One after the other, the jobs of any tiling append what processing all messages in order appends. |
| `WorkerPool.FlushedRows` | backend/internal/worker/worker.go:97-140 | Under every interleaving the batch is flushed at most once, after all jobs have finished, with everything appended; the rows of each job appear in its order, all of them unless it panicked and otherwise a prefix. |
| `WorkerPool.ParallelIsSequential` | backend/internal/worker/worker.go:97-198 | For any number of workers and any interleaving without a panic, the rows flushed are as a multiset those of processing all messages in order. |
| `WorkerPool.ShortExactlyWhen` | backend/internal/worker/worker.go:97-140 | At the flush a job has appended fewer than n of its rows if and only if the schedule makes it panic before it has appended n. |
| `WorkerPool.PanicIsContained` | backend/internal/worker/worker.go:131-140 | As long as a job does not panic before its n-th row, its first n rows are flushed, each as often as it occurs among them, whatever other jobs do. |
| `WorkerPool.PanicLosesRows` | backend/internal/worker/worker.go:131-140 | A run with one job that panics flushes a batch that lacks its row. |
| `WorkerPool.AllRowsFlushedExactly` | backend/internal/worker/worker.go:97-140 | The flushed rows are all rows of the batch if and only if the schedule makes no job panic before its last row. |
| `WorkerPool.Progress` | backend/internal/worker/worker.go:67-78 | With at least one worker some step is possible until the batch has been flushed. |
| `WorkerPool.CanFlush` | backend/internal/worker/worker.go:97-129 | With at least one worker every run that has not flushed can be continued to its flush. |
| `WorkerPool.RunsEnd` | backend/internal/worker/worker.go:97-140 | A run has at most as many steps as a measure of its initial state, so with progress it reaches the flush. |
| `WorkerPool.SendNeverWaits` | backend/internal/worker/worker.go:61-61 | The job channel has room for every job of a batch. |
| `Process.LogDecompressor.Decompress` | backend/internal/worker/decompress.go:89-161 | With no Content-Encoding, an empty one, `none` or `identity` the bytes are the payload, with `gzip` or `zstd` what that codec makes of it, failing exactly when it does, and any other value fails; a pooled buffer behind the bytes is in no pool until cleanup, and on an error it is already back. |
| `Process.LogDecompressor.Run` | backend/internal/worker/decompress.go:123-126 | A cleanup gives exactly its own buffer back, which must not be in a pool, so at most once. |
| `Process.LogDecompressor.Receive` | backend/internal/worker/worker.go:178-193 | The request is decoded from the bytes so unpacked and the headers, the buffer being given back only afterwards and on every path; a payload that fails either step yields no logs. |
| `Process.ProcessMessages` | backend/internal/worker/worker.go:175-198 | While other jobs append anything between any two of its appends, a job appends exactly the rows of its messages, in message order, and nothing for messages that fail; for each row it asks the publisher, and exactly the rows answered yes are offered, in order. |
| `Process.MessageInOrder` | backend/internal/worker/worker.go:193-197 | The rows of a message are those of the records of what it decodes to, in resource, scope and record order, each with the clock reading of its resource logs. |
| `Handler.ConsumeCallback` | backend/internal/worker/worker.go:97-129 | However the jobs interleave on the shared appender, from any pool history, one insert of exactly the columns of what the jobs appended is attempted and the result is the database's answer; nothing else is inserted; an empty batch attempts no insert. |
| `Handler.SomeSchedule` | backend/internal/worker/worker.go:97-129 | Every batch has a schedule of handler and workers that ends with the flush. |
| `Handler.RunJob` | backend/internal/worker/worker.go:104-121 | The job's own code, decompression to append, run among the appends that a schedule makes the other jobs do, leaves the batch that the schedule flushes, unless the schedule makes the job panic. |
| `Handler.SplitWeaves` | backend/internal/worker/worker.go:104-121 | Every history of appends is a weave of the rows of any one job with what the others append. |
| `Flatten.LogTransformer.Flatten` | backend/internal/worker/transform.go:39-136 | With any pooled buffer, however dirty, and whatever other jobs append meanwhile, the row at the place of each record, in scope and record order, has the record's own time or now, its own observed time or now, its ids, severity, body and attributes, and the scope's and resource's values; the publisher is asked once per row, and exactly the rows answered yes are offered, in order and once each, under `tail.` and the service name, with a record of the same values; what it accepts is exactly the offers answered yes. |
| `Flatten.FlattenRecord` | backend/internal/worker/transform.go:69-134 | One round appends the record's row, its fields named one by one, asks the publisher once and offers the row exactly if the answer is yes; the resource attributes in the scratch slices survive it. |
| `Flatten.FindServiceName` | backend/internal/worker/transform.go:50-62 | The service name is the last non-empty `service.name`, or `unknown`. |
| `Flatten.RecordMatchesRow` | backend/internal/worker/transform.go:93-133 | The published record agrees with the stored row field by field if and only if neither id consists of zero bytes only. |
| `Flatten.RowsInOrder` | backend/internal/worker/transform.go:64-134 | One row per record; the row at a record's place has that record's fields, its scope's and its resource's. |
| `Flatten.PublicationAnnounces` | backend/internal/worker/transform.go:93-110 | What is offered for a row goes to its service's subject and encodes a record with the row's fields, ids in hexadecimal or empty if all zero. |
| `Flatten.LogTransformer.Recycle` | backend/internal/worker/transform.go:41-46 | A buffer goes back unless its log or resource attribute slice has room for more than 200. |
| `Flatten.Append` | backend/internal/worker/transform.go:59-60 | Go's append on a slice: in place or in a new array, the elements are the old ones and the new one. |
| `Flatten.TransformBuffer.Reset` | backend/internal/worker/transform.go:48-48 | After a reset the slices are empty on their old arrays, whatever the buffer held. |
| `Unflatten.UnflattenLogRecords` | backend/internal/core/logs.go:63-105 | Each view has the record's eleven plain fields and, per key, one attribute with the value at its place or none. |
| `Unflatten.SplitAndPair` | backend/internal/core/logs.go:63-80 | Splitting attributes into keys and values and pairing them again gives the attributes; pairing and splitting gives back the values if and only if there are as many as keys. |
| `Unflatten.FlattenedAttributesReturn` | backend/internal/core/logs.go:63-97 | Unflattening a flattened record gives back both attribute lists, the body, the service name and the scope. |
| `Columns.ReadBack` | backend/internal/storage/insert.go:167-189 | After any appends all columns have the same number of rows, positions tile the bytes, offsets never decrease and end at the element count, and row i reads back as the i-th row appended. |
| `Columns.ColumnsDetermineRows` | backend/internal/storage/insert.go:44-77 | Different row sequences have different columns. |
| `Columns.AppendWordReads` | backend/internal/storage/insert.go:171-183 | Appending a word keeps the positions tiling the buffer, and the words read are the old ones and the new one. |
| `Columns.AppendArrayReads` | backend/internal/storage/insert.go:185-194 | Appending a row to a column of arrays keeps the layout, and the rows read are the old ones and the new one. |
| `Columns.HexInjective` | backend/internal/storage/insert.go:58-64 | Different ids have different hexadecimal forms. |
| `Columns.HexSpells` | backend/internal/storage/insert.go:58-64 | Characters 2i and 2i+1 are the lower-case hexadecimal digits of the upper and lower half of byte i. |
| `Storage.ColumnBatch.Reset` | backend/internal/storage/insert.go:122-138 | All fifteen columns are empty afterwards, whatever they held, ragged or not. |
| `Storage.ColumnBatch.EnsureSize` | backend/internal/storage/insert.go:142-220 | A batch that is large enough is left alone; otherwise it is empty with the wanted capacity. |
| `Storage.BatchPool.Get` | backend/internal/pool/pool.go:32-39 | The oldest pooled batch or a new one; the pool does not hold it any more. |
| `Storage.BatchPool.Put` | backend/internal/pool/pool.go:41-53 | The batch is kept if and only if it is not too large and the pool has room; no batch is pooled twice. |
| `Storage.ClickHouseStore.FastInsert` | backend/internal/storage/insert.go:229-237 | From any pool history the appender starts on an empty batch of sufficient capacity that only it holds. |
| `Storage.ClickHouseStore.BatchInsert` | backend/internal/storage/insert.go:261-300 | If an id has the wrong length the call fails and no insert is attempted; otherwise one insert of the columns of all records is attempted and the result is the database's answer; whatever comes back to the pool was in it or is new. |
| `Storage.ClickHouseStore.AppendRecord` | backend/internal/storage/insert.go:271-297 | Adds one row, or fails on a bad id and then leaves at most a trace id behind. |
| `Storage.BatchAppender.Append` | backend/internal/storage/insert.go:44-77 | Adds the row to all fifteen columns; the new trace and span ids spell the row's, two lower-case hexadecimal digits per byte, upper half first. |
| `Storage.BatchAppender.Flush` | backend/internal/storage/insert.go:79-82 | Attempts exactly one insert of the columns held, returns the database's answer, and gives the batch back. |
| `Storage.AppendAll` | backend/internal/storage/insert.go:229-237 | Any rows appended through an appender of any store leave exactly the columns of these rows. |
| `Storage.InsertBothWays` | backend/internal/storage/insert.go:229-300 | On two stores with any pools, each with a ragged batch put back by an aborted call, rows appended one by one and the matching flat records inserted at once leave the same fifteen columns, from which the rows can be read back, whenever both succeed; nothing else is inserted. |
| `Pipeline.Worker.Select` | backend/cmd/worker/main.go:135-160 | The worker program stays in states of runs of the consumer machine, every handled batch corresponds to one call of the handler with the same messages and answer, and the store holds exactly what these calls inserted. |
| `Losses.FullyStoredExactlyWhen` | backend/internal/worker/worker.go:97-198 | A message is fully stored, that is, it decodes and, if it has rows, all that its job appends up to and including them was flushed, if and only if it decodes and it has no rows or its job did not panic before having appended them. |
| `Losses.FullyStoredRows` | backend/internal/worker/worker.go:97-198 | The rows of such a message are among those flushed, each as often as the message has it. |
| `Losses.AckedRowsAreStored` | backend/internal/worker/worker.go:97-198 | Every row of a delivery on whose batch the handler returned nil can be read back from the inserted columns, unless the job that held it panicked before having appended its rows. |
| `Losses.LostExactlyWhen` | backend/internal/transport/nats.go:245-276 | In every run an acknowledged delivery is neither fully stored nor dead-lettered if and only if the handler and the dead-letter call failed on it, or the handler returned nil and its payload does not decode, or the handler returned nil, it has rows and its job panicked before having appended them. |
| `Losses.AckHasPlace` | backend/internal/transport/nats.go:245-276 | Every acknowledged delivery is in some handled batch, to which the theorem applies. |
| `Losses.OnePlace` | backend/internal/transport/nats.go:204-212 | No delivery is in two handled batches, or twice in one. |
| `Losses.FailedDeadLetterLoses` | backend/internal/transport/nats.go:258-266 | A run in which a message is acknowledged although the handler and the dead-letter call failed on it. |
| `Losses.UndecodableLoses` | backend/internal/worker/worker.go:178-191 | A run in which a message that does not decode is acknowledged and the database gets no row. |
| `Losses.PanicLoses` | backend/internal/worker/worker.go:131-140 | A run in which a message with a row is acknowledged, its job panics, and the database does not get the row. |
| `MsgPack.ReadStringOf` | backend/internal/core/flat_log_gen.go:395-395 | A string shorter than 2^32 is read back, with exactly what follows it, in all header widths. |
| `MsgPack.ReadStringArrayOf` | backend/internal/core/flat_log_gen.go:422-425 | A list of strings is read back, with exactly what follows it. |
| `MsgPack.ReadUint8Of` | backend/internal/core/flat_log_gen.go:404-404 | A byte is read back in both its forms. |
| `MsgPack.ReadTimeOf` | backend/internal/core/flat_log_gen.go:386-386 | A time is read back, before and after the epoch alike. |
| `MsgPackSkip.SkipEncoded` | backend/internal/core/flat_log_gen.go:613-618 | Skipping discards one whole well-formed object of any family, nested no deeper than the limit, and nothing after it. |
| `MsgPackSkip.SkipExactlyObjects` | backend/internal/core/flat_log_gen.go:613-618 | Skipping succeeds with a given rest if and only if the input is a well-formed object within the nesting limit followed by that rest. |
| `MsgPackSkip.TooDeepFails` | backend/internal/core/flat_log_gen.go:613-618 | Skipping a well-formed object succeeds if and only if it is nested no deeper than the limit. |
| `FlatLogCodec.RoundTrip` | backend/internal/core/flat_log_gen.go:381-623 | Decoding undoes encoding, whatever the target held, and leaves exactly what follows. |
| `FlatLogCodec.RoundTripExactly` | backend/internal/core/flat_log_gen.go:381-623 | That holds if and only if all lengths are below 2^32. |
| `FlatLogCodec.DecodeAnyOrder` | backend/internal/core/flat_log_gen.go:448-623 | Any map with all sixteen keys, in any order, repeated consistently, with any key and map header forms and any foreign entries among them, decodes to the record its entries describe. |
| `FlatLogCodec.DecodePartial` | backend/internal/core/flat_log_gen.go:448-623 | Fields a map does not mention keep what the target held. |
| `FlatLogCodec.PermutedMapsDecodeAlike` | backend/internal/core/flat_log_gen.go:448-623 | Permuting the entries of a map does not change the outcome. |
| `FlatLogCodec.TruncatedFails` | backend/internal/core/flat_log_gen.go:448-623 | No strict prefix of an encoding decodes. |
| `FlatLogCodec.DecodeStable` | backend/internal/core/flat_log_gen.go:448-623 | What follows a decodable input does not influence the outcome. |
| `FlatLogCodec.DecodeManyOf` | backend/tests/integration/dashboard_test.go:284-298 | Go's decode loop over concatenated encodings returns the records in order and goes on with what follows. |
| `FlatLogCodec.DecodeManyTruncated` | backend/tests/integration/dashboard_test.go:284-298 | In that loop a message cut inside a record yields the whole records before the cut and then an error. |
| `FlatLogCodec.KeysDiffer` | backend/internal/core/flat_log_gen.go:464-613 | No two fields have the same key. |
| `FlatLogRecords.KeyBytesSpellKeys` | backend/internal/core/flat_log_gen.go:383-439 | Each byte literal of the encoder is the string header and the characters of its field's key. |
| `FlatLogRecords.FlatLogRecord.MarshalMsg` | backend/internal/core/flat_log_gen.go:381-445 | The record's encoding is appended to what the buffer held. |
| `FlatLogRecords.FlatLogRecord.EncodeMsg` | backend/internal/core/flat_log_gen.go:187-378 | Writes the bytes MarshalMsg appends; it fails exactly if a write has failed, and then, however much of it went out, the stream has a part of these bytes and nothing else. |
| `FlatLogRecords.FlatLogRecord.UnmarshalMsg` | backend/internal/core/flat_log_gen.go:448-623 | Into any target: succeeds exactly when the specification does, leaves the input it says and sets the scalar fields it says; the lists too if no two of the target's lists shared room in an array, and then none do afterwards; arrays are reused or replaced. |
| `FlatLogRecords.FlatLogRecord.DecodeMsg` | backend/internal/core/flat_log_gen.go:10-188 | The same for a stream, of which exactly the record is consumed. |
| `FlatLogRecords.ReadSlice` | backend/internal/core/flat_log_gen.go:537-555 | A list is read into the old array if and only if its capacity suffices, and the outcome does not depend on what the array held. |
| `FlatLogRecords.SharedRoomOverwrites` | backend/internal/core/flat_log_gen.go:537-555 | Two lists that share room in an array: after one string is read into each, both show the second. |
| `FlatLogRecords.FlatLogRecord.Msgsize` | backend/internal/core/flat_log_gen.go:626-644 | The estimate is never below the encoded length. |
| `FlatLogRecords.EncodingFits` | backend/internal/core/flat_log_gen.go:626-644 | For every record, in all header-width cases, the encoded length is at most the estimate. |
| `LiveTailPublisher.PublishedAsEncoded` | backend/internal/worker/publish.go:102-141 | Under every interleaving of enqueuers and workers each buffer has at most one owner, and every accepted job is queued, in a worker's hand or published with exactly the bytes encoded when it was enqueued; the queue stays within its size. |
| `LiveTailPublisher.PublishedWasEnqueued` | backend/internal/worker/publish.go:102-141 | Every publication is the encoding of a record that was enqueued under its subject. |
| `LiveTailPublisher.LiveTailPublisher.Enqueue` | backend/internal/worker/publish.go:102-128 | Accepts exactly when the queue has room or, without a queue, a worker waits; then the last job will publish the record's encoding as of now, and jobs accepted before are untouched; a refused job's buffer is back in the pool. |
| `LiveTailPublisher.LiveTailPublisher.Work` | backend/internal/worker/publish.go:134-141 | Publishes the oldest job's bytes and puts its buffer into the pool without touching the other jobs. |
| `LiveTail.FinalSendWaitsExactly` | backend/internal/transport/nats.go:323-334 | In every run the callback's final send waits if and only if the channel has no buffer and the reader is not at it. |
| `LiveTail.NothingDroppedWithoutBuffer` | backend/internal/transport/nats.go:323-334 | Without a buffer no message is dropped: the reader has received all messages offered but the one being sent. |
| `LiveTail.ContiguousContents` | backend/internal/transport/nats.go:315-336 | The channel always holds a contiguous stretch of what was published, right after everything that left it. |
| `LiveTail.ReaderSeesSubsequence` | backend/internal/transport/nats.go:315-336 | The reader sees a subsequence in publish order, and published messages are read, dropped, in the channel or with the callback; no more are dropped than found no room. |
| `LiveTail.OneDropPerMessage` | backend/internal/transport/nats.go:323-334 | From any state, until the next message arrives, a message costs at most one older one, and that only if there was neither room nor a waiting reader when it arrived. |
| `LiveTail.Session.OnPayload` | backend/internal/dashboard/websocket.go:67-74 | The bytes accumulated are the encodings of the records received since the last write, in order. |
| `LiveTail.Session.OnTick` | backend/internal/dashboard/websocket.go:76-88 | Nothing is written when nothing accumulated, and the session goes on; otherwise one message with all of it is written once, and the session ends exactly if that write fails. |
| `LiveTail.SessionDecodes` | backend/internal/dashboard/websocket.go:67-87 | Over all messages of a session the browser decodes the objects of the records sent, in order, every message decodes fully, and no object has the resource attribute keys under the name the pages read. |
| `LiveTail.EndToEnd` | backend/internal/transport/nats.go:310-336 | From subscription to browser the records sent are a subsequence of the records published, in order, and what the browser decodes and will decode next are the objects of these records. |
| `Browser.ExtIsMicros` | frontend/src/workers/logWorker.ts:10-23 | The browser reads the data of an encoded time as its whole microseconds, also before the epoch. |
| `Browser.RecordTreeEncodes` | backend/internal/core/flat_log_gen.go:381-445 | The bytes of a record are those of one well-formed MessagePack map. |
| `Browser.FifteenFieldsSeen` | frontend/src/types/Log.ts:18-36 | Under the names of the browser's record type every record's object has fifteen fields with the record's values, times in whole microseconds, and the resource attribute keys are undefined. |
| `Browser.NumbersByName` | backend/internal/core/flat_log_gen.go:381-445 | The browser has the three times, in whole microseconds, and the severity number under their names on the wire. |
| `Browser.TextsByName` | backend/internal/core/flat_log_gen.go:381-445 | It has the eight texts under their names on the wire. |
| `Browser.ListsByName` | backend/internal/core/flat_log_gen.go:381-445 | It has the four lists under their names on the wire. |
| `Browser.AllFieldsSeenExactlyWhen` | frontend/src/types/Log.ts:18-36 | A table of one name per field shows every field of every record if and only if it has the names on the wire. |
| `Browser.DialogShows` | frontend/src/components/TailLogDialog.tsx:22-32 | The detail page shows exactly the log attributes of a record and never a resource attribute. |
| `Browser.ResourceAttributeVanishes` | frontend/src/components/TailLogDialog.tsx:32-32 | A record with one resource attribute that survives encoding and decoding, and whose resource attribute key the pages do not see. |
| `Browser.NanosecondsVanish` | frontend/src/workers/logWorker.ts:21-22 | Two times look the same in the browser if and only if they agree up to whole microseconds. |
| `Browser.DecodeMultiOf` | frontend/src/workers/logWorker.ts:58-63 | The browser's decode loop over concatenated encodings gives the objects of the records in order and goes on with what follows. |
| `Browser.DecodeMultiTruncated` | frontend/src/workers/logWorker.ts:56-68 | A message cut inside a record gives the objects of the whole records before the cut and then an error. |
| `LogRing.StampOfRecord` | frontend/src/utils/CircularLogBuffer.ts:32-33 | A record's object has a number to be ordered by, the record's microseconds. |
| `LogRing.CircularLogBuffer.Add` | frontend/src/utils/CircularLogBuffer.ts:14-18 | The ring holds the latest items, oldest first, up to its size. |
| `LogRing.CircularLogBuffer.ToArrayNewestFirst` | frontend/src/utils/CircularLogBuffer.ts:20-34 | Exactly the items held, in some order; if all timestamps are numbers, sorted stably by descending timestamp with the newest arrival first. |
| `LogRing.DisplayAfter` | frontend/src/utils/CircularLogBuffer.ts:9-34 | After any sequence of adds to a ring of any positive size, the array holds exactly the latest items, and if their timestamps are numbers it is the stable descending sort of them listed newest first. |
| `LogRing.Sort` | frontend/src/utils/CircularLogBuffer.ts:32-33 | The same items in some order; if all timestamps are numbers, the stable descending sort. |
| `LogRing.ShownIsDisplay` | frontend/src/utils/CircularLogBuffer.ts:20-34 | If all timestamps held are numbers, what is shown is determined by the history. |
| `LogRing.HeldAfterAdd` | frontend/src/utils/CircularLogBuffer.ts:14-18 | Overwriting at the head and moving it, across the wrap-around too, drops the oldest item of a full ring and no other. |
| `LogRing.SortSorts` | frontend/src/utils/CircularLogBuffer.ts:32-33 | The sort is descending and keeps the order of items with equal timestamps. |
| `LogRing.StableSortUnique` | frontend/src/utils/CircularLogBuffer.ts:32-33 | There is only one such sequence, so any stable sort returns it. |
| `LogRing.TiesNewestFirst` | frontend/src/utils/CircularLogBuffer.ts:20-34 | Of items shown with the same timestamp the later arrival comes first, and as many items are shown as are held. |
| `LogRing.LogWorker.OnMessage` | frontend/src/workers/logWorker.ts:52-69 | Every object decoded from a message enters the ring, in order, paused or not; while paused they are counted. |
| `LogRing.OnRecords` | frontend/src/workers/logWorker.ts:52-69 | A message with encodings of records adds exactly their objects to the history, and keeps it one that can be sorted. |
| `LogRing.LogWorker.OnTick` | frontend/src/workers/logWorker.ts:104-112 | Shows the last 300 objects of the whole history, sorted as the ring sorts, or while paused the count. |
| `LogRing.LogWorker.Resume` | frontend/src/workers/logWorker.ts:120-124 | Resuming shows at once everything that arrived meanwhile, sorted as the ring sorts. |
| `Attack.NeverPanics` | load_generator/attack/runner_grpc.go:160-210 | In every run there is no send on a closed channel, no second close and no negative wait group; results are closed only when every worker has exited. |
| `Attack.OneResultPerToken` | load_generator/attack/runner_grpc.go:160-210 | No token has two results; when the reader sees the end it has received exactly one for every token dispatched. |
| `Attack.ResultsAreOfCalls` | load_generator/attack/runner_grpc.go:238-244 | Every result sent, queued or read tells how the call for its own token ended. |
| `Attack.StuckExactlyWhen` | load_generator/attack/runner_grpc.go:160-210 | A run is stuck if and only if the reader has seen the end and the dispatcher has stopped, or waits for a worker that does not exist. |
| `Attack.RunsEnd` | load_generator/attack/runner_grpc.go:182-208 | Once the dispatcher has stopped a run has a bounded number of steps left. |
| `Rollup.TotalsAreCounts` | deploy/clickhouse/init.sql:38-88 | For any split into insert blocks and any merges, totals per service and second and per service and minute are the counts of log rows, of all and of those with severity 17 or more, and the minute totals are the regrouped second totals. |
| `Rollup.MergedRowsAreCounts` | deploy/clickhouse/init.sql:38-88 | In a fully merged table every row holds exactly the counts of its service and time. |
| `Rollup.NoRowIsDeleted` | deploy/clickhouse/init.sql:46-46 | No row ever has zero sums, so summing merges delete none. |
| `Rollup.SumGroupBy` | deploy/clickhouse/init.sql:63-64 | Grouping keeps every total. |
| `FileNames.GenerateFileName` | load_generator/files/files.go:24-51 | Returns the absent candidate with the least suffix; it finds none if and only if all of one more names than the folder has entries are taken where the name lies, or, for a reserved name that leads somewhere, all numbered ones; for an ordinary plain name it always finds one. |
| `FileNames.AllTakenExactlyWhen` | load_generator/files/files.go:24-51 | For every name, with or without a slash, all candidates are taken if and only if their last parts are among the entries of the folder the name leads to, or the name is reserved, leads somewhere, and this holds of the numbered ones. |
| `FileNames.TakenNeedsEntries` | load_generator/files/files.go:24-51 | All candidates are taken only if the folder the name leads to has at least as many entries as the folder searched, and one more for an ordinary name. |
| `FileNames.PlainTakenExactlyWhen` | load_generator/files/files.go:24-51 | All candidates of a plain name are taken if and only if it denotes the folder or its parent and the entries are just its numbered names. |
| `FileNames.CandidatesDiffer` | load_generator/files/files.go:33-38 | Different suffixes give different names. |
| `FileNames.CandidateOf` | load_generator/files/files.go:25-38 | The number goes between the stem and the last dot of a name. |
| `FileNames.AtoiOfItoa` | load_generator/files/files.go:36-36 | A number is determined by its decimal form. |
| `FileNames.DotMayFail` | load_generator/files/files.go:24-51 | All candidates of `.` are taken in a folder holding just `1.`. |
| `FileNames.SubfolderMayFail` | load_generator/files/files.go:24-51 | All candidates of `a/b` are taken in a folder whose only entry `a` holds `b` and `b1`. |

## Left out

- FlatLogRecords.FlatLogRecord.UnmarshalMsg: does not say what the record holds after an error, nor what the lists hold when two of the target's lists share room in an array, where the code writes one over the other (FlatLogRecords.SharedRoomOverwrites).
- FlatLogRecords.FlatLogRecord.DecodeMsg: as UnmarshalMsg, and does not say how much of the stream an error consumes.
- FlatLogCodec.RoundTripExactly: the target's own lengths are below 2^32; with a longer one a field that is not overwritten could agree by chance.
- Process.ProcessMessages: the pools of buffers and the publisher are used by this job only; other jobs take and give back other buffers.
- Handler.ConsumeCallback: the interleaving is an argument, one step per append, and Handler.RunJob ties the code of a job to it; that a failed insert stored nothing is an assumption about the database, which may have stored the block when the call's time runs out (backend/internal/worker/worker.go:124).
- Storage.BatchAppender.Flush: the same assumption about a failed insert.
- Handler.RunJob: a job that panics may stop anywhere and is not run.
- Losses.FullyStoredExactlyWhen: an equal row of another message is not counted for the message; rows are attributed to jobs.
- Storage.InsertBothWays: requires the flat records' ids to be the hexadecimal form of the rows' ids, which for zero bytes only is not what the published record has.
- LogRing.CircularLogBuffer.ToArrayNewestFirst: text that JavaScript would turn into a number counts as no number; the order then is any.
- LogRing.LogWorker.OnMessage: one message is decoded at a time and in order; the handler waits for a Blob's bytes first, so that two messages could be decoded in the other order.
- Browser.ExtIsMicros: numbers are unbounded integers; beyond 2^53 microseconds JavaScript's numbers are not exact.
- Browser.DecodeMultiOf: text is kept as bytes; map keys that are numbers, which the browser accepts, count as errors, and no record has any.
- LiveTail.FinalSendWaitsExactly: the context is live and the channel is not closed while a callback is running; cleanup happens between callbacks.
- LiveTailPublisher.PublishedAsEncoded: without a queue a send may also find that a worker between two jobs has not come back to the channel; then the job is dropped, as for a full queue.
- Rollup.TotalsAreCounts: counts are unbounded, not 64 bits wide; expiry and the 32-bit range of the tables' times are left out.
- FileNames.GenerateFileName: input and output errors are left out; what is in the folder that a path leads to is given.
- Delivery counts stay below 2^63; broker limits on message age and size, drain at exit, and reconnection are not modelled.
- The NATS server, ClickHouse and their clients are environments that may redeliver and fail; HTTP, gRPC and WebSocket transport, signals and logging are left out.
- OTLP decoding, zstd and gzip are partial functions given as parameters; attribute values and bodies are given in string form.
- The MessagePack library's source is not part of this model; its limit on nesting when skipping is a constant on whose value nothing depends. Times in the standard's extension type -1, which the library also reads, are not modelled; a time has no location.
- The column library's own storage of times and of low-cardinality strings: both are plain lists.
- The clock is a list of readings per message; timers are events that may happen at any time.
- A panic inside an append under the appender's lock, and closing the worker pool or the publisher while in use.
- The pool is modelled for column batches; sync.Pool is a set that may forget its elements.
- The publisher as Flatten sees it answers at will; its queue and buffers are modelled on their own.
- Payload generation, request timing and latency metrics of the load generator.
- Queries, filters, service registry, metrics endpoints, presence, configuration, React components other than the attribute lists, and charts: they would only add easy members.
