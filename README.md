# batchelor in Dafny

A model of the core of batchelor, a small Java library that batches items
asynchronously and hands every batch to a sink. It models three pieces, with
proofs about each:

- **`AsyncBatchExecutor`** (`executor.dfy`, module `BatchExecutor`). Producers
  `add` items to a queue, which is bounded when the configured size is
  positive. A worker thread drains up to `batchSize` items into its batch and
  hands the batch to the sink. If the sink refuses, it retries the identical
  batch until the sink accepts. `flush` and `stop` wait until the queue and
  the batch are empty.
  - The executor is a class whose fields are the source's state: `queue`,
    `messages`, `append`, `running`, plus a `started` flag for the worker
    thread.
  - Threads become steps. A producer's `Add` is one step; if the bounded queue
    is full, the producer keeps retrying `Put`, as it would keep waiting inside
    `queue.put`. One pass of the worker loop is a `Drain`, then one `Deliver`
    per sink answer. `Flush` and `Stop` are each one poll of the source's
    waiting loop.
  - The sink (`BatchHandler`) is an oracle. Its answer to `handle` is the
    argument of `Deliver`. Every call made on it is recorded in the ghost log
    `calls`, and a ghost sequence `added` records every item the queue accepted.
- **`RollingBatchFileWriter`** (`rolling_file_writer.dfy`, module
  `RollingFileWriter`). It writes each batch to the file named after the base
  path plus the UTC hour, and switches files when the hour changes.
  - `createFileName` is a pure function of the base path and the instant.
  - The hour stamp is Joda's `ISODateTimeFormat.dateHour()` in UTC,
    `yyyy-MM-ddTHH`. This is the ISO 8601 extended format with the time of day
    reduced to the hour (section 4.3.3 of ISO 8601:2004).
  - The stamp is computed from epoch milliseconds by proleptic Gregorian
    arithmetic (`iso_date_hour.dfy`, module `IsoDateHour`).
  - `createWriter`, `handle` and `done` are methods of a class holding
    `currentFile` and the current writer.
- **`BatchFileWriter`** (`file_writer.dfy`, module `FileWriter`). It appends
  each message and then a newline, skips a write that fails, and always
  reports the batch as handled.
  - Files live in a `FileStore` object. It maps each path to the sequence of
    chunks written to it and keeps a ghost log of opens and closes.
  - Whether a write succeeds is given per message as a `WriteOutcome`.
  - Whether a file can be opened is a parameter of `Open`.

Behaviours of the code that a reader may not expect, and that the model
keeps:

- `stop` calls the sink's `done` on every call. A second `stop` calls it
  again.
- A negative configured queue size gives an unbounded queue, yet the fill
  fraction still divides by it, so the result is zero or negative.
- Starting a started executor fails without setting `append`. In Java,
  `Thread.start` throws `IllegalThreadStateException`.

## Model

| member | source | states |
|---|---|---|
| BatchExecutor.BuildQueue | src/main/java/com/collective/batchelor/util/AsyncBatchExecutor.java:105-110 | the queue is bounded exactly when the configured size is positive, with that size as its capacity |
| BatchExecutor.AsyncBatchExecutor.constructor | src/main/java/com/collective/batchelor/util/AsyncBatchExecutor.java:90-97 | a new executor has an empty queue and batch, does not accept items, its worker is not started, its max queue size is the configured size and its queue size is 0 |
| BatchExecutor.AsyncBatchExecutor.CreateAndStart | src/main/java/com/collective/batchelor/util/AsyncBatchExecutor.java:99-103 | createAndStart gives a fresh executor that is started and accepts items, with nothing queued or delivered |
| BatchExecutor.AsyncBatchExecutor.MaxQueueSize | src/main/java/com/collective/batchelor/util/AsyncBatchExecutor.java:112-114 | getMaxQueueSize is the configured queue size |
| BatchExecutor.AsyncBatchExecutor.QueueSize | src/main/java/com/collective/batchelor/util/AsyncBatchExecutor.java:116-118 | getQueueSize is the number of waiting items, never above a positive configured size |
| BatchExecutor.AsyncBatchExecutor.QueueFillFraction | src/main/java/com/collective/batchelor/util/AsyncBatchExecutor.java:120-126 | 0 when the configured size is 0, otherwise size/queueSize exactly; on a bounded queue it lies in [0, 1] and is 1 exactly when the queue is full |
| BatchExecutor.RatioOfCapacity | src/main/java/com/collective/batchelor/util/AsyncBatchExecutor.java:125 | the ratio size/capacity times capacity is size; for a positive capacity it lies in [0, 1] and is 1 exactly at capacity |
| BatchExecutor.AsyncBatchExecutor.Start | src/main/java/com/collective/batchelor/util/AsyncBatchExecutor.java:128-133 | the first start sets `append` and starts the worker; a second start fails and changes nothing |
| BatchExecutor.AsyncBatchExecutor.Put | src/main/java/com/collective/batchelor/util/AsyncBatchExecutor.java:148-152 | put places the item at the tail of the queue exactly when the queue is unbounded or below capacity; otherwise nothing changes and the producer stays blocked |
| BatchExecutor.AsyncBatchExecutor.Add | src/main/java/com/collective/batchelor/util/AsyncBatchExecutor.java:145-153 | add ignores the item when `append` is off (not started, or stopped); otherwise it appends the item at the tail, or blocks exactly when the bounded queue is full; the capacity bound and the FIFO invariant are kept |
| BatchExecutor.AsyncBatchExecutor.Drain | src/main/java/com/collective/batchelor/util/AsyncBatchExecutor.java:35-39 | a drain from an empty batch moves the first min(budget, batchSize, queue length) items of the queue, in order, into the batch, and the queue keeps the rest |
| BatchExecutor.AsyncBatchExecutor.Deliver | src/main/java/com/collective/batchelor/util/AsyncBatchExecutor.java:45-54 | the sink receives the current non-empty batch; the batch is cleared only when the sink accepts it and is otherwise kept unchanged for the retry; the accepted batch joins the delivered ones |
| BatchExecutor.AsyncBatchExecutor.Flush | src/main/java/com/collective/batchelor/util/AsyncBatchExecutor.java:66-78 | flush returns exactly when the worker no longer runs or both the queue and the batch are empty; in the second case every accepted item has been delivered, in order |
| BatchExecutor.AsyncBatchExecutor.Stop | src/main/java/com/collective/batchelor/util/AsyncBatchExecutor.java:135-139 | stop turns `append` off; once the flush would return it stops the worker and calls `done` on the sink, otherwise it keeps waiting |
| BatchExecutor.FifoAfterHandle | src/main/java/com/collective/batchelor/util/AsyncBatchExecutor.java:45-53 | delivered batches, then the batch, then the queue, spell out every accepted item in order; one delivery attempt keeps this, whatever the sink answers |
| BatchExecutor.LogAfterHandle | src/main/java/com/collective/batchelor/util/AsyncBatchExecutor.java:47-53 | after a delivery attempt the sink has still never seen an empty or oversized batch, and every refused batch is followed by a handle of the identical batch |
| BatchExecutor.LogWhileIdle | src/main/java/com/collective/batchelor/util/AsyncBatchExecutor.java:32-39 | with an empty batch the last call was no refusal, so `done` may follow and a new batch may be drained without breaking the retry guarantee |
| BatchExecutor.DeliveredBatchesBounded | src/main/java/com/collective/batchelor/util/AsyncBatchExecutor.java:35-45 | every batch the sink accepted holds between 1 and batchSize items |
| BatchExecutor.FlushedMeansDelivered | src/main/java/com/collective/batchelor/util/AsyncBatchExecutor.java:71 | once the queue and the batch are empty, the delivered batches concatenate to exactly the accepted items |
| BatchExecutor.FillFractionScenario | src/test/java/com/collective/batchelor/util/AsyncBatchExecutorTest.java:35-48 | with capacity 3 and the first item in the worker's batch, the fill fraction is 1/3, 2/3 and 1 after one, two and three more items |
| BatchExecutor.NotStartedScenario | src/test/java/com/collective/batchelor/util/AsyncBatchExecutorTest.java:90-106 | an executor that was never started ignores an added item, keeps queue size 0, and flushes and stops at once |
| BatchExecutor.FlushScenario | src/test/java/com/collective/batchelor/util/AsyncBatchExecutorTest.java:72-88 | flush does not return while the sink refuses the batch, and returns once the sink accepts it |
| BatchExecutor.BackpressureScenario | src/test/java/com/collective/batchelor/util/AsyncBatchExecutorTest.java:108-131 | with capacity 1 and a refusing sink, the first item goes to the batch, the second fills the queue and the third blocks; after the sink accepts and the worker drains, the blocked put completes |
| IsoDateHour.DaysBeforeMonth | src/main/java/com/collective/batchelor/file/RollingBatchFileWriter.java:17 | the days before month 13 are the days of the whole year |
| IsoDateHour.CivilOfHour | src/main/java/com/collective/batchelor/file/RollingBatchFileWriter.java:17 | the UTC calendar date and hour of an hour count since the epoch is a valid date and hour; HoursOfCivilOfHour shows it is the date and hour that hour count falls in |
| IsoDateHour.DateHourOf | src/main/java/com/collective/batchelor/file/RollingBatchFileWriter.java:17 | the UTC date and hour of an instant (floor division for instants before 1970) is a valid calendar date and hour |
| IsoDateHour.YearOfDayCounts | src/main/java/com/collective/batchelor/file/RollingBatchFileWriter.java:17 | the year walk lands on a year and day whose day count from the epoch is the one it started from |
| IsoDateHour.HoursOfCivilOfHour | src/main/java/com/collective/batchelor/file/RollingBatchFileWriter.java:17 | converting an hour count to a calendar date and hour and back, by the closed-form day count, gives the hour count again |
| IsoDateHour.CivilOfHoursOfCivil | src/main/java/com/collective/batchelor/file/RollingBatchFileWriter.java:17 | converting a valid calendar date and hour to an hour count and back gives it again |
| IsoDateHour.HoursOfCivilInjective | src/main/java/com/collective/batchelor/file/RollingBatchFileWriter.java:17 | two valid dates and hours with the same hour count are equal |
| IsoDateHour.PaddedValue | src/main/java/com/collective/batchelor/file/RollingBatchFileWriter.java:17 | a zero-padded field is all digits, as wide as the width or the number, and reads back as the number |
| IsoDateHour.FormatDateHour | src/main/java/com/collective/batchelor/file/RollingBatchFileWriter.java:17 | `yyyy-MM-ddTHH`: at least 13 characters, starting with a minus sign exactly for a negative year; for a valid date and hour the last nine characters are `-MM-ddTHH` with the separators in place, and with a year from 0 to 9999 it is exactly 13 characters |
| IsoDateHour.DateHourStamp | src/main/java/com/collective/batchelor/file/RollingBatchFileWriter.java:54 | the stamp of `now` is the formatted UTC date and hour of the instant, 13 characters long for years 0 to 9999; ParseFormat reads it back and SameHourSameStamp and DifferentHourDifferentStamp tie it to the hour |
| IsoDateHour.ParseFormat | src/main/java/com/collective/batchelor/file/RollingBatchFileWriter.java:17 | a date and hour with a year from 0 to 9999 is written as `yyyy-MM-ddTHH`, which reads back as that date and hour |
| IsoDateHour.SameHourSameStamp | src/main/java/com/collective/batchelor/file/RollingBatchFileWriter.java:17 | two instants in the same hour get the same stamp |
| IsoDateHour.DifferentHourDifferentStamp | src/main/java/com/collective/batchelor/file/RollingBatchFileWriter.java:17 | two instants in different hours (years 0 to 9999) get different stamps |
| IsoDateHour.StampExample | src/test/java/com/collective/batchelor/file/RollingBatchFileWriterTest.java:33-36 | 2013-08-13 15:23:23.999 UTC is stamped `2013-08-13T15` |
| IsoDateHour.StampExampleNextHour | src/test/java/com/collective/batchelor/file/RollingBatchFileWriterTest.java:85-91 | 2013-08-13 16:23:23.999 UTC is stamped `2013-08-13T16` |
| RollingFileWriter.LastIndexOf | src/main/java/com/collective/batchelor/file/RollingBatchFileWriter.java:51 | lastIndexOf is -1 exactly when the character is absent, and otherwise a position holding it with none after it |
| RollingFileWriter.StampPosition | src/main/java/com/collective/batchelor/file/RollingBatchFileWriter.java:50-51 | the stamp goes at the last dot of the base path, or at its end exactly when it has no dot |
| RollingFileWriter.StampedName | src/main/java/com/collective/batchelor/file/RollingBatchFileWriter.java:49-57 | createFileName with the stamp given: the name is exactly as long as the base path, `-` and the stamp together; FileNameSplit gives where each part goes |
| RollingFileWriter.CreateFileName | src/main/java/com/collective/batchelor/file/RollingBatchFileWriter.java:49-57 | createFileName: the name is as long as the base path, `-` and the stamp of `now` together; FileNameChangesWithHour shows it changes exactly when the hour does |
| RollingFileWriter.FileNameSplit | src/main/java/com/collective/batchelor/file/RollingBatchFileWriter.java:49-57 | the file name is the base path up to its last dot, `-`, the stamp, then the dot and suffix (or the whole base path, `-` and the stamp); removing the inserted part gives the base path back |
| RollingFileWriter.StampedNameInjective | src/main/java/com/collective/batchelor/file/RollingBatchFileWriter.java:49-57 | from one base path, two stamps give the same name exactly when they are equal |
| RollingFileWriter.FileNameChangesWithHour | src/main/java/com/collective/batchelor/file/RollingBatchFileWriter.java:39-40 | the computed path equals the previous one exactly when the two instants are in the same hour (years 0 to 9999), so the writer rotates on, and only on, an hour change |
| RollingFileWriter.FileNameWithSuffix | src/test/java/com/collective/batchelor/file/RollingBatchFileWriterTest.java:60-61 | `test.log` with stamp `2013-08-13T15` becomes `test-2013-08-13T15.log` |
| RollingFileWriter.FileNameWithoutSuffix | src/test/java/com/collective/batchelor/file/RollingBatchFileWriterTest.java:63-64 | `test` becomes `test-2013-08-13T15` |
| RollingFileWriter.FileNameWithSeveralDots | src/test/java/com/collective/batchelor/file/RollingBatchFileWriterTest.java:66-67 | `test.somemore.log` becomes `test.somemore-2013-08-13T15.log` |
| RollingFileWriter.FileNameWithDottedDirectory | src/test/java/com/collective/batchelor/file/RollingBatchFileWriterTest.java:69-70 | `/home/bla/karli.lotti/test.log` becomes `/home/bla/karli.lotti/test-2013-08-13T15.log` |
| RollingFileWriter.RotationTestHours | src/test/java/com/collective/batchelor/file/RollingBatchFileWriterTest.java:76-91 | the two instants of the rotation test are in different hours of 2013 and give `test-2013-08-13T15` and `test-2013-08-13T16` |
| RollingFileWriter.FirstHour | src/test/java/com/collective/batchelor/file/RollingBatchFileWriterTest.java:43-44 | the first batch of a new rolling writer opens the file of that hour, which then holds the batch line by line, and the writer stays open |
| RollingFileWriter.SameHourBatch | src/main/java/com/collective/batchelor/file/RollingBatchFileWriter.java:39-40 | a batch handled in the hour of the open file is appended to it line by line, the writer stays open and nothing is opened or closed, so batches of one hour can follow each other |
| RollingFileWriter.SameHourScenario | src/test/java/com/collective/batchelor/file/RollingBatchFileWriterTest.java:38-53 | two batches handled within one hour end up one after the other in that hour's file, which is opened once and closed once, by done |
| RollingFileWriter.RollingBatchFileWriter.constructor | src/main/java/com/collective/batchelor/file/RollingBatchFileWriter.java:23-25 | a new rolling writer has no current file and no writer |
| RollingFileWriter.RollingBatchFileWriter.CreateWriter | src/main/java/com/collective/batchelor/file/RollingBatchFileWriter.java:38-47 | an unchanged path leaves everything as it was, the writer staying open or closed; a changed path closes the previous writer if it is open, before the new file is opened, and on success the current file becomes the new path; a failed open leaves the current file and writer as they were, the writer closed |
| RollingFileWriter.RollingBatchFileWriter.Handle | src/main/java/com/collective/batchelor/file/RollingBatchFileWriter.java:27-36 | handle always answers true; in the hour of the current file the batch is appended to it and the writer stays as open as it was; on an hour change the previous open writer is closed and the batch goes to the new file, or is dropped, with the old writer left closed, when that file cannot be opened |
| RollingFileWriter.RollingBatchFileWriter.Done | src/main/java/com/collective/batchelor/file/RollingBatchFileWriter.java:59-63 | done closes the current writer only when there is one, records the close only when it was open, and changes no file |
| RollingFileWriter.RotationScenario | src/test/java/com/collective/batchelor/file/RollingBatchFileWriterTest.java:75-98 | two batches handled in different hours end up in two files, each holding exactly its own batch line by line; the first file is closed before the second is opened |
| RollingFileWriter.OpenFailsScenario | src/main/java/com/collective/batchelor/file/RollingBatchFileWriter.java:29-34 | when the file cannot be opened, handle still answers true, no file is written and no current file is recorded |
| FileWriter.Open | src/main/java/com/collective/batchelor/file/BatchFileWriter.java:18-20 | opening by name for appending keeps an existing file's content or creates it empty, and records the open; a failed open changes nothing |
| FileWriter.BatchFileWriter.Wrap | src/main/java/com/collective/batchelor/file/BatchFileWriter.java:22-24 | the writer wraps an open file |
| FileWriter.BatchFileWriter.WriteChunk | src/main/java/com/collective/batchelor/file/BatchFileWriter.java:30-31 | one write appends its chunk to the file exactly when the writer is open and the write succeeds |
| FileWriter.BatchFileWriter.WriteMessage | src/main/java/com/collective/batchelor/file/BatchFileWriter.java:29-34 | one turn of the loop: the message and, only if it was written, its newline are appended exactly as MessageChunks says when the writer is open, and nothing when it is closed; no other file changes |
| FileWriter.BatchFileWriter.Handle | src/main/java/com/collective/batchelor/file/BatchFileWriter.java:26-37 | handle answers true and appends to the file, message by message in order, each message and then a newline; a failed write skips the rest of that message and the loop goes on; a closed writer appends nothing |
| FileWriter.MessageChunks | src/main/java/com/collective/batchelor/file/BatchFileWriter.java:29-34 | what one message leaves in the file is a prefix of the message and its newline: nothing exactly when the message write fails, both exactly when both writes succeed |
| FileWriter.Written | src/main/java/com/collective/batchelor/file/BatchFileWriter.java:28-35 | what a batch leaves in the file: at most two chunks per message, and nothing when every message write fails |
| FileWriter.BatchFileWriter.Done | src/main/java/com/collective/batchelor/file/BatchFileWriter.java:39-46 | done closes the writer and leaves the file content unchanged; closing a writer that is already closed records nothing |
| FileWriter.WrittenAppend | src/main/java/com/collective/batchelor/file/BatchFileWriter.java:28-35 | what a batch leaves in the file is what its two halves leave, one after the other: a failure does not stop later messages |
| FileWriter.WrittenAllOk | src/main/java/com/collective/batchelor/file/BatchFileWriter.java:28-31 | when every write succeeds, a batch leaves each message followed by a newline |
| FileWriter.LineEnd | src/test/java/com/collective/batchelor/file/BatchFileWriterTest.java:29 | the end of the first line is the first line feed or carriage return, or the end of the text |
| FileWriter.ReadLinesOfLines | src/test/java/com/collective/batchelor/file/BatchFileWriterTest.java:29-30 | reading back, line by line, a file written line by line gives the messages, when none holds a line feed or carriage return |
| FileWriter.ReadLines | src/test/java/com/collective/batchelor/file/BatchFileWriterTest.java:29 | reading a text back line by line (`Files.readAllLines`) gives no lines exactly for the empty text, at most one line per character, and no line holds a line feed or carriage return; a last line without a line break still counts and `\r\n` ends a single line, as ReadLinesCarriageReturn and ReadLinesCrLf show |
| FileWriter.ReadLinesCarriageReturn | src/test/java/com/collective/batchelor/file/BatchFileWriterTest.java:29 | a carriage return ends a line: `a\rb` reads back as two lines |
| FileWriter.ReadLinesCrLf | src/test/java/com/collective/batchelor/file/BatchFileWriterTest.java:29 | a carriage return followed by a line feed ends one line: `a\r\nb` reads back as two lines |
| FileWriter.AppendScenario | src/test/java/com/collective/batchelor/file/BatchFileWriterTest.java:37-55 | two writers opened one after the other on the same file, each handed a batch: reading the file back gives the first batch and then the second, for any messages without line breaks |
| FileWriter.WriteBatch | src/test/java/com/collective/batchelor/file/BatchFileWriterTest.java:41-43 | opening a writer on a file, handing it a batch whose writes all succeed and closing it appends the batch's lines to the file, and records one open and one close |
| FileWriter.FailingWritesScenario | src/test/java/com/collective/batchelor/file/BatchFileWriterTest.java:57-65 | a writer whose every write fails still answers true and leaves the file empty, and `done` closes it: the file is opened once and closed once |

## Left out

- Threads, timing and interruption are not modelled:
  - the worker thread's name, priority and daemon flag;
  - `Thread.sleep` in the retry and flush loops;
  - the retry interval and the drain time (the drain's time budget becomes the `budget` count);
  - every `InterruptedException` path, and the logging.
- BatchExecutor.AsyncBatchExecutor.Drain: modelled only from an empty batch, the uninterrupted path. After an interrupted retry the source can top up a batch it never cleared, beyond `batchSize`. The model does not allow that.
- BatchExecutor.AsyncBatchExecutor.Flush: one poll of the waiting loop, evaluated atomically. In the source, another thread can stop the worker between two polls.
- BatchExecutor.AsyncBatchExecutor.Stop: one poll, like `Flush`. The concurrent wake-up of a flush that is already waiting is not modelled.
- BatchExecutor.AsyncBatchExecutor.QueueFillFraction: an exact ratio, not Java `float` division with its rounding.
- The Jetty `ConcurrentArrayBlockingQueue` and Guava `Queues.drain` are modelled only by their FIFO and capacity behaviour.
- BatchExecutor.AsyncBatchExecutor.constructor: the batch size is a `nat`. For a negative batch size the source's worker constructor throws `IllegalArgumentException` when it allocates the batch list. The model does not allow that input instead of modelling the failure.
- BatchExecutor.AsyncBatchExecutor.Deliver: the sink can only answer true or false. The worker catches only `InterruptedException`, so a sink whose `handle` throws a runtime exception ends the worker thread; nothing is drained after that, and `flush` and `stop` wait forever once an item is pending. That failure is not modelled.
- BatchExecutor.AsyncBatchExecutor.Deliver: the sink receives the batch as a value. In the source, `handle` receives the worker's own list, so a sink that modifies it changes what is retried and what `clear` discards. That aliasing is not modelled, and the exact-retry guarantee holds only for sinks that leave the list alone.
- BatchExecutor.AsyncBatchExecutor.Add: items are values and cannot be null. In the source, `add(null)` on a started executor makes `queue.put` throw `NullPointerException` to the producer. That failure is not modelled.
- Java `int` widths are not modelled. Sizes are unbounded integers, and a queue or batch never gets near 2^31 items.
- The `BatchHandler` interface is not a type of its own. A sink's answers are arguments and its calls are a ghost log.
- `FlumeBatchHandler` and the Flume test server are left out. They are network clients and servers.
- The system clock (`new DateTime()`) is the parameter `now`. Whether a file opens is the parameter `opens`. Whether a write succeeds is a `WriteOutcome`.
- `BufferedWriter` buffering is not modelled. Each successful write reaches the file at once, and a failing `close` has no further effect.
- IsoDateHour.ParseFormat: stated only for years 0 to 9999. Only there does the stamp have exactly four year digits.
- IsoDateHour.DifferentHourDifferentStamp: stated only for years 0 to 9999, because it rests on ParseFormat.
- RollingFileWriter.FileNameChangesWithHour: stated only for years 0 to 9999, because it rests on the stamps differing. Joda's own limits on the year, about ±292 million, are not modelled.
