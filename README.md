# 458ramdisk, modelled in Dafny

A model of the core of `458ramdisk.c`, a Linux 2.6.32 block-device
driver that keeps a disk in memory and logs its I/O:

- **Store** (`store.dfy`): the byte store `_ramdisk_data`, sector-to-byte
  translation (`pos * 512`, `sectors * 512`), the capacity announced by
  `ramdisk_init` (the size in sectors, rounded up), the store size that
  covers that capacity, and the effect of a `memcpy` into the store.
- **RwLog** (`rw_log.dfy`): the I/O log `rw_log[LOG_SIZE]` with its write
  cursor `log_ptr` and saturating count `cur_log_size`, as a class over a
  100-slot array. Also the procfs reader `read_func` with its cursor
  `_proc_off`. The pure function `Ring(h)` gives the array's contents after
  the records `h` have been appended. The class keeps its array equal to it,
  and lemmas say what `Ring` holds: the last `min(|h|, 100)` records, the
  oldest at the cursor once full, and the order the reader prints them in.
- **Requests** (`requests.dfy`): requests as the drain loop sees them. A
  request is file-system or not, a read or a write, and a sequence of
  chunks (`blk_rq_pos`, `blk_rq_cur_sectors`, `req->buffer` on each
  pass). The module gives a pure description of what serving a queue does:
  the store afterwards (`DiskAfter`), what each originator gets back
  (`Outcomes`) and the records logged (`Events`). It also holds the loop's
  cursor and its one-pass step, both as the driver writes it and as
  intended.
- **Driver** (`driver.dfy`): the class `Ramdisk`, holding the store array
  and the log. It also holds `Drain`, the `ramdisk_request` loop, proved
  to leave the store, the outcomes and the log exactly as `DiskAfter`,
  `Outcomes` and `Events` say.

The kernel is abstracted as inputs. The queue is a sequence of requests. On
each pass the call `__blk_end_request_cur` returns non-zero exactly when
the request still has chunks left. The value of `jiffies` when a request is
logged travels with the request, and `HZ` is a constructor parameter.

Two behaviours a reader might not expect, which the model keeps as the
code has them:

- The procfs file lists the live slots `0..cur_log_size-1` in index order,
  not oldest-first. Once the log has wrapped, `RwLog.ReaderOrderAfterWrap`
  states the rotation a reader sees.
- The driver does not reject an out-of-range request; it copies without a
  bounds check. The model makes "every chunk fits the store"
  (`Requests.Serviceable`) a precondition of the drain loop. The block
  layer passes on only chunks inside the announced capacity, and the
  driver's own capacity breaks that precondition for a size that is not a
  whole number of sectors (see "## Findings").

## Model

| member | source | states |
|---|---|---|
| Store.U32 | 458ramdisk.c:217-220 | a value stored into an `unsigned int` field is below 2^32, and is the value itself when that fits |
| Store.NSectors | 458ramdisk.c:127-131 | the capacity is the least sector count whose 512-byte sectors cover every byte of the store |
| Store.SectorBytes | 458ramdisk.c:196-197 | the bytes in n sectors, the chunk's offset and its length alike: a multiple of 512 whose quotient is n |
| Store.CapacityBytes | 458ramdisk.c:127-131 | the size rounded up to whole sectors: at least the size, less than one sector more, and announced as the same number of sectors |
| Store.Overwrite | 458ramdisk.c:204 | copying a buffer into the store keeps the store's length |
| Store.OverwritePlaces | 458ramdisk.c:204 | after the copy the addressed range holds the buffer and every other byte is unchanged |
| RwLog.Line | 458ramdisk.c:285-289 | a printed line carries the record's type, sector and byte count, and its time cast to `unsigned int` |
| RwLog.NextSlot | 458ramdisk.c:227-230 | advancing the cursor once keeps it inside the array, and it returns to 0 exactly from the last slot |
| RwLog.Cursor | 458ramdisk.c:227-230 | the write cursor stays inside the array |
| RwLog.CursorIsMod | 458ramdisk.c:227-230 | after k appends the cursor, advanced and wrapped each time, is k mod LOG_SIZE |
| RwLog.Ring | 458ramdisk.c:66 | the log array always has LOG_SIZE slots |
| RwLog.RingRetainsLast | 458ramdisk.c:217-230 | each of the last min(N, LOG_SIZE) records appended is still in the array, record j in slot j mod LOG_SIZE |
| RwLog.OldestAtCursor | 458ramdisk.c:217-230 | once the log is full, the slot under `log_ptr` holds the oldest record kept, the next one overwritten |
| RwLog.RetainedAfterAppend | 458ramdisk.c:217-225 | an append adds to the kept records below capacity, and at capacity drops exactly the oldest |
| RwLog.SlotBeforeWrap | 458ramdisk.c:217-218 | before the array wraps, slot s holds the s-th record |
| RwLog.ReaderOrderBeforeWrap | 458ramdisk.c:280-291 | before the array wraps, the live slots hold the records in arrival order |
| RwLog.SlotBelowCursor | 458ramdisk.c:217-230 | after the wrap, a slot below `log_ptr` holds one of the newest records |
| RwLog.SlotFromCursor | 458ramdisk.c:217-230 | after the wrap, a slot at or above `log_ptr` holds one of the older records, in order |
| RwLog.ReaderOrderAfterWrap | 458ramdisk.c:280-291 | after the wrap, the slots in index order are the kept records rotated, newest `log_ptr` of them first |
| RwLog.ActivityLog.constructor | 458ramdisk.c:66-69 | the log starts zeroed, with both counters and the reader cursor at 0 |
| RwLog.ActivityLog.Append | 458ramdisk.c:215-233 | an append writes slot `log_ptr` only, sets `cur_log_size` to min(old + 1, LOG_SIZE), advances `log_ptr` by one mod LOG_SIZE, and keeps the array equal to Ring of the history |
| RwLog.ActivityLog.ReadProc | 458ramdisk.c:269-294 | offset 0 resets the cursor; at or past `cur_log_size` the call reports end of file; otherwise it emits the slot under the cursor and advances the cursor by one |
| RwLog.ActivityLog.ReadAll | 458ramdisk.c:269-294 | reading the file from offset 0 to end of file yields slots 0..cur_log_size-1 in index order: the history before the wrap, the rotated kept records after it |
| Requests.DirBit | 458ramdisk.c:217 | the logged type is 0 or 1, and 1 exactly for a write |
| Requests.Millis | 458ramdisk.c:220 | the logged time fits an `unsigned long` |
| Requests.MillisRoundsDown | 458ramdisk.c:220 | the logged time is the wrapped product `jiffies * 1000` divided by HZ, rounded down |
| Requests.LogEntry | 458ramdisk.c:217-220 | the record of a finished request: type 1 exactly for a write; the last chunk's sector and byte count, below 2^32 and unchanged when they fit; the time in milliseconds |
| Requests.ReadChunks | 458ramdisk.c:210 | a read hands back one entry per chunk served |
| Requests.ReadChunksPlaces | 458ramdisk.c:210 | entry j of what a read hands back is the bytes chunk j addresses, in chunk order |
| Requests.ServeOutcome | 458ramdisk.c:191-211 | a request fails with `-EIO` exactly when it is not a file-system request; a write succeeds with no data, and a read gets one entry per chunk |
| Requests.WriteChunks | 458ramdisk.c:196-204 | serving a write's chunks keeps the store's length |
| Requests.DiskAfter | 458ramdisk.c:181-239 | serving requests keeps the store's length |
| Requests.Outcomes | 458ramdisk.c:181-239 | each served request hands back exactly one outcome |
| Requests.Events | 458ramdisk.c:214-236 | at most one record is logged per request |
| Requests.OutcomeStays | 458ramdisk.c:181-239 | a served request's outcome stays what it was handed, however many requests follow |
| Requests.OutcomesGrow | 458ramdisk.c:181-239 | serving more requests never changes what earlier originators got |
| Requests.EventsGrow | 458ramdisk.c:214-236 | serving more requests only appends to the log |
| Requests.RejectedRequestChangesNothing | 458ramdisk.c:190-194 | a non-file-system request gets `-EIO`, leaves the store unchanged and is not logged |
| Requests.WriteTouchesOnlyItsChunks | 458ramdisk.c:196-204 | a write changes no byte outside the ranges its chunks address |
| Requests.LastChunkWritten | 458ramdisk.c:196-204 | once a write is served, the range its last chunk addresses holds that chunk's buffer |
| Requests.LaterChunkAfter | 458ramdisk.c:196-197 | when a request's chunks follow each other, a later chunk starts at or after the end of an earlier one |
| Requests.CopyLeavesEarlier | 458ramdisk.c:204 | copying a chunk in leaves alone the bytes of a chunk that ends before it starts |
| Requests.ChunkKept | 458ramdisk.c:196-204 | after a write whose chunks follow each other, the range of each chunk holds that chunk's buffer |
| Requests.ReadBack | 458ramdisk.c:196-211 | a read of the sectors the write just served, chunk for chunk and over any number of chunks, returns the written buffers in order |
| Requests.ChunkKeptThrough | 458ramdisk.c:181-239 | requests that leave a write's bytes alone keep them as the write left them |
| Requests.ChunkSeenLater | 458ramdisk.c:196-211 | each chunk of a later read of the write's sectors addresses the matching write chunk's buffer |
| Requests.ReadSeesWrite | 458ramdisk.c:196-211 | the later read is served the write's buffers in order |
| Requests.ReadAfterWrite | 458ramdisk.c:181-239 | in the outcomes of the drained queue, a read of an earlier write's sectors holds the written buffers, whatever requests that leave those bytes alone come between them |
| Requests.LoggedInOrder | 458ramdisk.c:214-236 | every file-system request is logged, in queue order, straight after the records of the requests before it |
| Requests.WholeSectorsFit | 458ramdisk.c:127-131 | for a store of whole sectors, every chunk within the announced capacity lies in the store |
| Requests.LastSectorOverruns | 458ramdisk.c:127-131 | for any other size, a one-sector read of the last announced sector is within the capacity but runs past the store |
| Requests.CapacityCovered | 458ramdisk.c:127-131 | a store of the size rounded up to whole sectors holds every chunk within the announced capacity |
| Requests.StepAsWritten | 458ramdisk.c:187-237 | one pass of the loop as written: the next chunk, the next request, or, for a rejected request, the same request again |
| Requests.Step | 458ramdisk.c:187-237 | one pass of the intended loop always progresses: to the next chunk of the held request, or to the next request, and a rejected request always moves on |
| Requests.RejectedRequestSpins | 458ramdisk.c:190-194 | as written, the loop holds a rejected request forever and never drains the queue |
| Requests.StepTakesOnePass | 458ramdisk.c:187-237 | each intended pass uses up exactly one of the passes left |
| Requests.RunReachesEnd | 458ramdisk.c:187-237 | the intended loop drains the queue in the passes left |
| Requests.DrainFinishes | 458ramdisk.c:187-237 | the intended loop drains any queue, in one pass per chunk and one per rejected request |
| Requests.RunStaysInQueue | 458ramdisk.c:187-237 | the loop's cursor never passes the end of the queue |
| Driver.ChunkServed | 458ramdisk.c:196-211 | a pass over a chunk copies its buffer into the store (write), or copies the addressed bytes out and keeps the store (read) |
| Driver.AtRequestStart | 458ramdisk.c:187-188 | when a request is fetched the store is the one left by the earlier requests and nothing is copied out yet |
| Driver.RejectPass | 458ramdisk.c:190-194 | rejecting a request keeps the store and log, adds `-EIO` to the outcomes and fetches the next request |
| Driver.WritePass | 458ramdisk.c:196-214 | a write's non-final chunk lands in the store; the request stays held and is not logged |
| Driver.NextRequest | 458ramdisk.c:214-236 | after the last pass over a request the loop holds the next one, with the store the earlier requests left and nothing copied out |
| Driver.WriteCompletes | 458ramdisk.c:196-214 | a write's final chunk leaves the store the whole write produces, and the write succeeds |
| Driver.ReadPass | 458ramdisk.c:196-214 | a read's non-final chunk copies the addressed bytes out; the store is unchanged and the request stays held |
| Driver.ReadCompletes | 458ramdisk.c:205-214 | a completed read hands back the bytes of all its chunks in order and leaves the store unchanged |
| Driver.RequestEnds | 458ramdisk.c:214-236 | ending a request adds its outcome and, for a file-system request, its log record |
| Driver.LastWriteAdvances | 458ramdisk.c:196-236 | the final pass over a write takes the loop's store, log, outcomes and copied bytes to those of the next request |
| Driver.LastReadAdvances | 458ramdisk.c:205-236 | the final pass over a read takes the loop's store, log, outcomes and copied bytes to those of the next request |
| Driver.Ramdisk.constructor | 458ramdisk.c:95-131 | the store is zeroed and announced as NSectors(size) sectors; it is the size rounded up to whole sectors, so every chunk within the capacity lies in it; the log is empty |
| Driver.Ramdisk.CopyIn | 458ramdisk.c:204 | the write `memcpy` leaves the store as Overwrite says |
| Driver.Ramdisk.ServeChunk | 458ramdisk.c:196-211 | a write chunk copies its buffer to byte `pos*512`; a read chunk copies `sectors*512` bytes out from there and keeps the store |
| Driver.Ramdisk.CopyOut | 458ramdisk.c:210 | the read `memcpy` returns the `sectors*512` bytes from `pos*512`, byte for byte |
| Driver.Ramdisk.LogCompletion | 458ramdisk.c:214-233 | logging a completed request appends its direction, sector, byte count and time in milliseconds |
| Driver.Ramdisk.MiddlePass | 458ramdisk.c:196-214 | a non-final pass keeps the loop invariant, and the outcomes and log are unchanged |
| Driver.Ramdisk.LastWrite | 458ramdisk.c:196-236 | the final pass over a write keeps the loop invariant at the next request |
| Driver.Ramdisk.LastRead | 458ramdisk.c:205-236 | the final pass over a read keeps the loop invariant at the next request |
| Driver.Ramdisk.Drain | 458ramdisk.c:181-239 | draining the queue leaves the store as DiskAfter, the outcomes as Outcomes and the log history extended by Events; the reader cursor is untouched |

## Left out

- Module registration and teardown (`register_blkdev`, `blk_init_queue`, `alloc_disk`, `add_disk`, `create_proc_entry`, `ramdisk_cleanup`): these are kernel calls with no logic of their own. Their failure paths, including `vmalloc` failing, are left out with them.
- The spinlocks `_lock` and `_log_lock`: the model is sequential, and a log append and a pass of the loop are each one atomic step.
- `printk` debug output and the `debug` parameter: I/O only.
- `sprintf` formatting in `read_func`: a line is modelled as its four numbers (`RwLog.LogLine`), in the order they are printed. The proc page pointer `*start` and the returned length are left out with it.
- The no-op callbacks `ramdisk_open`, `ramdisk_release`, `ramdisk_media_changed`, `ramdisk_revalidate` and `ramdisk_ioctl`: they have no behaviour.
- bench.py is not part of this model: it is a benchmark made only of file I/O and randomness.
- The block layer is not modelled. A chunk is always ended whole, so a partial completion of the current chunk is not represented. The record of a finished request takes its sector and byte count from the last chunk, as `blk_rq_pos(req)` and `num_bytes` still hold after the final `__blk_end_request_cur`. The driver reads `req` after the block layer has completed it; that use is not modelled.
- Driver.Ramdisk.Drain: requires every chunk to fit the store, and a write's buffer to hold exactly the bytes it moves, because the driver has no bounds check before either `memcpy`. Out-of-range requests, which would overrun `_ramdisk_data`, are not modelled. With the rounded-up store, the block layer's capacity check gives the first part (`Driver.Ramdisk.constructor`, `Requests.CapacityCovered`).
- Driver.Ramdisk.constructor: allocates the size rounded up to whole sectors, not the `ramdisk_size` bytes of line 95. This is the correction in the second finding; `Requests.LastSectorOverruns` states what the allocation as written lets through.
- Store.SectorBytes: sector-to-byte products are unbounded integers. `pos * 512` is an `unsigned long` product. `blk_rq_cur_sectors(req) * 512` at line 197 is an `unsigned int` product, which wraps at 2^32 for a chunk of 2^23 sectors or more. Neither wrap is modelled, because the block layer's request-size limits keep a chunk far below it. Log fields are truncated to 32 bits (`Store.U32`).
- Requests.Millis: takes `unsigned long` as 64 bits, so `jiffies * 1000` wraps at 2^64. On a 32-bit kernel it wraps at 2^32, which the model does not capture.
- `jiffies` and `HZ` are inputs, not clocks: a request carries the `jiffies` value read when it is logged.

## Findings

| source | as written | input that shows it | evidently intended | confidence | as-written member | corrected member |
|---|---|---|---|---|---|---|
| 458ramdisk.c:190-194 | a non-file-system request is ended with `-EIO`, then `continue` re-enters the loop without `blk_fetch_request`, so `req` still names the ended request | a queue whose first request is not a file-system request: the loop ends it again on every pass and never drains the queue | end the request and fetch the next one, as the completion branch does at line 235 | high; not executed | Requests.RejectedRequestSpins | Requests.DrainFinishes |
| 458ramdisk.c:127-131 | the capacity is `ramdisk_size` rounded up to whole sectors, but `vmalloc` at line 95 allocates and `memset` at line 102 zeroes only `ramdisk_size` bytes; the block layer checks requests against the capacity, and the `memcpy` at lines 204 and 210 has no check of its own (`vmalloc` rounds up to whole pages, so the copy stays in mapped memory but moves bytes past the zeroed store) | `ramdisk_size` = 1000 announces 2 sectors; a one-sector read of sector 1 is within the capacity and copies bytes 512..1023 out of a 1000-byte store | every announced sector lies in the store: allocate and zero `nsectors * 512` bytes | medium; not executed | Requests.LastSectorOverruns | Requests.CapacityCovered |
