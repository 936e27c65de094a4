/*
 * The requests `ramdisk_request` drains from its queue, and a pure
 * description of what serving them does: the store afterwards, what each
 * originator gets back, and the records appended to the log. The drain
 * loop's own bookkeeping (which request it holds, how many of its chunks
 * are done) is the LoopPos, advanced by Step; StepAsWritten keeps the
 * loop's handling of a rejected request exactly as the driver has it.
 */
module Requests {
  import opened Store
  import opened RwLog

  /** `rq_data_dir(req)`. */
  datatype Direction = Read | Write

  /** The value `rq_data_dir` gives and the log stores: 0 for a read, 1 for a write. */
  function DirBit(d: Direction): (bit: nat)
    ensures bit <= 1 && (bit == 1 <==> d == Write)
  {
    if d == Write then 1 else 0
  }

  /**
   * What the block layer shows of a request on one pass of the drain loop:
   * `blk_rq_pos(req)`, `blk_rq_cur_sectors(req)` and, for a write, the bytes
   * at `req->buffer` (for a read the buffer is only a destination).
   */
  datatype Chunk = Chunk(pos: nat, sectors: nat, buffer: seq<Byte>)

  /**
   * A queued request: whether it is a file-system request
   * (`cmd_type == REQ_TYPE_FS`), its direction, its chunks in the order the
   * block layer presents them, and the value of `jiffies` when its
   * completion is logged.
   */
  datatype Request = Request(fs: bool, dir: Direction, chunks: seq<Chunk>, jiffies: nat)

  /** What a request's originator gets: `-EIO`, or completion with the bytes each chunk of a read copied out. */
  datatype Outcome = Failed | Served(readData: seq<seq<Byte>>)

  /** `offset = blk_rq_pos(req) * 512`. */
  function ChunkOffset(c: Chunk): nat
  {
    SectorBytes(c.pos)
  }

  /** `num_bytes = blk_rq_cur_sectors(req) * 512`. */
  function ChunkBytes(c: Chunk): nat
  {
    SectorBytes(c.sectors)
  }

  /** The chunk's byte range lies in a store of `size` bytes, and a write brings exactly the bytes it moves. */
  predicate ChunkFits(c: Chunk, dir: Direction, size: nat)
  {
    && ChunkOffset(c) + ChunkBytes(c) <= size
    && (dir == Write ==> |c.buffer| == ChunkBytes(c))
  }

  /** A file-system request has at least one chunk; the block layer never hands over an empty one. */
  predicate Completable(r: Request)
  {
    r.fs ==> |r.chunks| > 0
  }

  /**
   * What the driver relies on without checking it: besides Completable,
   * every chunk of a file-system request fits the store (the copies are
   * done with no bounds check).
   */
  predicate Serviceable(r: Request, size: nat)
  {
    Completable(r) && (r.fs ==> forall j :: 0 <= j < |r.chunks| ==> ChunkFits(r.chunks[j], r.dir, size))
  }

  predicate AllCompletable(q: seq<Request>)
  {
    forall i :: 0 <= i < |q| ==> Completable(q[i])
  }

  predicate AllServiceable(q: seq<Request>, size: nat)
  {
    forall i :: 0 <= i < |q| ==> Serviceable(q[i], size)
  }

  /** The store after the first k chunks of a write have been copied in, one `memcpy` each. */
  function WriteChunks(disk: seq<Byte>, r: Request, k: nat): (d: seq<Byte>)
    requires r.fs && r.dir == Write && Serviceable(r, |disk|) && k <= |r.chunks|
    ensures |d| == |disk|
    decreases k
  {
    if k == 0 then disk
    else
      var c := r.chunks[k - 1];
      Overwrite(WriteChunks(disk, r, k - 1), ChunkOffset(c), c.buffer)
  }

  /** The bytes a read of chunk c copies out of store d. */
  function ChunkData(d: seq<Byte>, c: Chunk): seq<Byte>
    requires ChunkOffset(c) + ChunkBytes(c) <= |d|
  {
    d[ChunkOffset(c)..ChunkOffset(c) + ChunkBytes(c)]
  }

  /** The bytes the first k chunks of a read copy out, one entry per chunk. */
  function ReadChunks(disk: seq<Byte>, r: Request, k: nat): (rs: seq<seq<Byte>>)
    requires r.fs && r.dir == Read && Serviceable(r, |disk|) && k <= |r.chunks|
    ensures |rs| == k
  {
    if k == 0 then []
    else ReadChunks(disk, r, k - 1) + [ChunkData(disk, r.chunks[k - 1])]
  }

  /** A read's copied-out bytes: one entry per chunk served, entry j being the bytes chunk j addresses. */
  lemma {:induction false} ReadChunksPlaces(disk: seq<Byte>, r: Request, k: nat)
    requires r.fs && r.dir == Read && Serviceable(r, |disk|) && k <= |r.chunks|
    ensures |ReadChunks(disk, r, k)| == k
    ensures forall j :: 0 <= j < k ==> ReadChunks(disk, r, k)[j] == ChunkData(disk, r.chunks[j])
    decreases k
  {
    if k > 0 {
      ReadChunksPlaces(disk, r, k - 1);
    }
  }

  /** The store after serving r: only a file-system write changes it. */
  function ServeStore(disk: seq<Byte>, r: Request): seq<Byte>
    requires Serviceable(r, |disk|)
  {
    if r.fs && r.dir == Write then WriteChunks(disk, r, |r.chunks|) else disk
  }

  /** What the originator of r gets when r is served against `disk`. */
  function ServeOutcome(disk: seq<Byte>, r: Request): (o: Outcome)
    requires Serviceable(r, |disk|)
    ensures o.Failed? <==> !r.fs
    ensures r.fs && r.dir == Write ==> o == Served([])
    ensures r.fs && r.dir == Read ==> o.Served? && |o.readData| == |r.chunks|
  {
    if !r.fs then Failed
    else if r.dir == Read then Served(ReadChunks(disk, r, |r.chunks|))
    else Served([])
  }

  /** `(jiffies * 1000) / HZ`, the multiplication wrapping as `unsigned long` arithmetic does. */
  function Millis(jiffies: nat, hz: nat): (ms: nat)
    requires hz > 0
    ensures ms < ULONG_MOD
  {
    (jiffies * 1000) % ULONG_MOD / hz
  }

  /** The division rounds down: HZ times the milliseconds is at most the wrapped product, and less than HZ below it. */
  lemma MillisRoundsDown(jiffies: nat, hz: nat)
    requires hz > 0
    ensures Millis(jiffies, hz) * hz <= (jiffies * 1000) % ULONG_MOD < (Millis(jiffies, hz) + 1) * hz
  {
    var x := (jiffies * 1000) % ULONG_MOD;
    assert x == (x / hz) * hz + x % hz;
  }

  /**
   * The record logged for a finished request. The driver fills it after the
   * last `__blk_end_request_cur`, from `rq_data_dir`, `blk_rq_pos` (still the
   * last chunk's sector) and its local `num_bytes` (the last chunk's length),
   * each stored into an `unsigned int`.
   */
  function LogEntry(r: Request, hz: nat): (e: RwInfo)
    requires |r.chunks| > 0 && hz > 0
    ensures var c := r.chunks[|r.chunks| - 1];
      && (e.kind == 1 <==> r.dir == Write) && e.kind <= 1
      && e.startSector < U32_MOD && (c.pos < U32_MOD ==> e.startSector == c.pos)
      && e.numBytes < U32_MOD && (ChunkBytes(c) < U32_MOD ==> e.numBytes == ChunkBytes(c))
      && e.time == Millis(r.jiffies, hz)
  {
    var c := r.chunks[|r.chunks| - 1];
    RwInfo(DirBit(r.dir), U32(c.pos), U32(ChunkBytes(c)), Millis(r.jiffies, hz))
  }

  /** The store after the first k requests of `q` are served in order. */
  function DiskAfter(disk: seq<Byte>, q: seq<Request>, k: nat): (d: seq<Byte>)
    requires AllServiceable(q, |disk|) && k <= |q|
    ensures |d| == |disk|
    decreases k
  {
    if k == 0 then disk else ServeStore(DiskAfter(disk, q, k - 1), q[k - 1])
  }

  /** What the originators of the first k requests of `q` get, request by request. */
  function Outcomes(disk: seq<Byte>, q: seq<Request>, k: nat): (os: seq<Outcome>)
    requires AllServiceable(q, |disk|) && k <= |q|
    ensures |os| == k
    decreases k
  {
    if k == 0 then []
    else Outcomes(disk, q, k - 1) + [ServeOutcome(DiskAfter(disk, q, k - 1), q[k - 1])]
  }

  /** The records appended to the log while the first k requests of `q` are served: one per file-system request. */
  function Events(q: seq<Request>, k: nat, hz: nat): (es: seq<RwInfo>)
    requires hz > 0 && AllCompletable(q) && k <= |q|
    ensures |es| <= k
    decreases k
  {
    if k == 0 then []
    else Events(q, k - 1, hz) + (if q[k - 1].fs then [LogEntry(q[k - 1], hz)] else [])
  }

  /** Serving more requests never changes what the earlier ones got: the outcomes only grow. */
  lemma {:induction false} OutcomesGrow(disk: seq<Byte>, q: seq<Request>, j: nat, k: nat)
    requires AllServiceable(q, |disk|) && j <= k <= |q|
    ensures Outcomes(disk, q, j) == Outcomes(disk, q, k)[..j]
    decreases k
  {
    if j < k {
      OutcomesGrow(disk, q, j, k - 1);
    }
  }

  /** Request m's outcome, once it is served, stays in place however many requests follow it. */
  lemma {:induction false} OutcomeStays(disk: seq<Byte>, q: seq<Request>, m: nat, n: nat)
    requires AllServiceable(q, |disk|) && m < n <= |q|
    ensures Outcomes(disk, q, n)[m] == ServeOutcome(DiskAfter(disk, q, m), q[m])
    decreases n
  {
    if m < n - 1 {
      OutcomeStays(disk, q, m, n - 1);
    }
  }

  /** Serving more requests only appends to the log: earlier records are never rewritten. */
  lemma {:induction false} EventsGrow(q: seq<Request>, j: nat, k: nat, hz: nat)
    requires hz > 0 && AllCompletable(q) && j <= k <= |q|
    ensures Events(q, j, hz) <= Events(q, k, hz)
    decreases k
  {
    if j < k {
      EventsGrow(q, j, k - 1, hz);
    }
  }

  /**
   * A request that is not a file-system request is failed with `-EIO`: the
   * store is unchanged and nothing is logged.
   */
  lemma RejectedRequestChangesNothing(disk: seq<Byte>, q: seq<Request>, k: nat, hz: nat)
    requires AllServiceable(q, |disk|) && k < |q| && !q[k].fs && hz > 0
    ensures AllCompletable(q)
    ensures DiskAfter(disk, q, k + 1) == DiskAfter(disk, q, k)
    ensures Outcomes(disk, q, k + 1) == Outcomes(disk, q, k) + [Failed]
    ensures Events(q, k + 1, hz) == Events(q, k, hz)
  {
    assert Completable(q[k]);
  }

  /** A byte that none of the first k chunks of a write addresses keeps its value. */
  lemma {:induction false} WriteTouchesOnlyItsChunks(disk: seq<Byte>, r: Request, k: nat, i: nat)
    requires r.fs && r.dir == Write && Serviceable(r, |disk|) && k <= |r.chunks| && i < |disk|
    requires forall j :: 0 <= j < k ==> !(ChunkOffset(r.chunks[j]) <= i < ChunkOffset(r.chunks[j]) + ChunkBytes(r.chunks[j]))
    ensures WriteChunks(disk, r, k)[i] == disk[i]
  {
    if k > 0 {
      WriteTouchesOnlyItsChunks(disk, r, k - 1, i);
      var c := r.chunks[k - 1];
      assert ChunkFits(c, r.dir, |disk|);
      OverwritePlaces(WriteChunks(disk, r, k - 1), ChunkOffset(c), c.buffer);
    }
  }

  /**
   * The bytes a write's last chunk addresses hold that chunk's buffer once
   * the write is served.
   */
  lemma LastChunkWritten(disk: seq<Byte>, r: Request)
    requires r.fs && r.dir == Write && Serviceable(r, |disk|)
    ensures var c := r.chunks[|r.chunks| - 1];
      ChunkData(ServeStore(disk, r), c) == c.buffer
  {
    var k := |r.chunks| - 1;
    assert ChunkFits(r.chunks[k], r.dir, |disk|);
    OverwritePlaces(WriteChunks(disk, r, k), ChunkOffset(r.chunks[k]), r.chunks[k].buffer);
  }

  /**
   * The chunks of a request follow each other on the disk: the block layer
   * advances `blk_rq_pos` past each chunk it ends.
   */
  predicate Consecutive(r: Request)
  {
    forall j :: 0 <= j < |r.chunks| - 1 ==> r.chunks[j + 1].pos == r.chunks[j].pos + r.chunks[j].sectors
  }

  /** In a request whose chunks follow each other, a later chunk starts at or after the end of an earlier one. */
  lemma {:induction false} LaterChunkAfter(r: Request, j: nat, m: nat)
    requires Consecutive(r) && j < m < |r.chunks|
    ensures ChunkOffset(r.chunks[j]) + ChunkBytes(r.chunks[j]) <= ChunkOffset(r.chunks[m])
    decreases m
  {
    assert r.chunks[m].pos == r.chunks[m - 1].pos + r.chunks[m - 1].sectors;
    if m > j + 1 {
      LaterChunkAfter(r, j, m - 1);
    }
  }

  /** Copying a chunk in leaves alone a chunk that ends at or before the copied one starts. */
  lemma CopyLeavesEarlier(prev: seq<Byte>, c: Chunk, cj: Chunk)
    requires ChunkFits(c, Write, |prev|) && ChunkFits(cj, Write, |prev|)
    requires ChunkOffset(cj) + ChunkBytes(cj) <= ChunkOffset(c)
    ensures ChunkData(Overwrite(prev, ChunkOffset(c), c.buffer), cj) == ChunkData(prev, cj)
  {
    var now := Overwrite(prev, ChunkOffset(c), c.buffer);
    OverwritePlaces(prev, ChunkOffset(c), c.buffer);
    var lo, hi := ChunkOffset(cj), ChunkOffset(cj) + ChunkBytes(cj);
    forall b | lo <= b < hi
      ensures now[b] == prev[b]
    {
      assert !(ChunkOffset(c) <= b < ChunkOffset(c) + |c.buffer|);
    }
    assert now[lo..hi] == prev[lo..hi];
  }

  /** Once chunk j of such a write is copied in, the later chunks leave its bytes alone. */
  lemma {:induction false} ChunkKept(disk: seq<Byte>, r: Request, j: nat, k: nat)
    requires r.fs && r.dir == Write && Serviceable(r, |disk|) && Consecutive(r) && j < k <= |r.chunks|
    ensures ChunkData(WriteChunks(disk, r, k), r.chunks[j]) == r.chunks[j].buffer
    decreases k
  {
    var c, cj := r.chunks[k - 1], r.chunks[j];
    assert ChunkFits(c, r.dir, |disk|) && ChunkFits(cj, r.dir, |disk|);
    var prev := WriteChunks(disk, r, k - 1);
    assert WriteChunks(disk, r, k) == Overwrite(prev, ChunkOffset(c), c.buffer);
    if k - 1 > j {
      ChunkKept(disk, r, j, k - 1);
      LaterChunkAfter(r, j, k - 1);
      CopyLeavesEarlier(prev, c, cj);
    } else {
      OverwritePlaces(prev, ChunkOffset(c), c.buffer);
    }
  }

  /** The buffers a request's chunks carry, in order. */
  function Buffers(r: Request): seq<seq<Byte>>
  {
    seq(|r.chunks|, j requires 0 <= j < |r.chunks| => r.chunks[j].buffer)
  }

  /** Two requests address the same sectors, chunk for chunk. */
  predicate SameLayout(a: Request, b: Request)
  {
    && |a.chunks| == |b.chunks|
    && forall j :: 0 <= j < |a.chunks| ==> a.chunks[j].pos == b.chunks[j].pos && a.chunks[j].sectors == b.chunks[j].sectors
  }

  /**
   * A read of the sectors a write just wrote, chunk for chunk, returns the
   * written buffers in order, whatever number of chunks the two span.
   */
  lemma ReadBack(disk: seq<Byte>, w: Request, rd: Request)
    requires Serviceable(w, |disk|) && w.fs && w.dir == Write && Consecutive(w)
    requires Serviceable(rd, |disk|) && rd.fs && rd.dir == Read && SameLayout(rd, w)
    ensures ServeOutcome(ServeStore(disk, w), rd) == Served(Buffers(w))
  {
    var d1 := ServeStore(disk, w);
    var n := |rd.chunks|;
    ReadChunksPlaces(d1, rd, n);
    forall j | 0 <= j < n
      ensures ReadChunks(d1, rd, n)[j] == Buffers(w)[j]
    {
      ChunkKept(disk, w, j, n);
      assert ChunkData(d1, rd.chunks[j]) == ChunkData(d1, w.chunks[j]);
    }
    assert ReadChunks(d1, rd, n) == Buffers(w);
  }

  /** Two chunks address no byte in common. */
  predicate Apart(a: Chunk, b: Chunk)
  {
    ChunkOffset(a) + ChunkBytes(a) <= ChunkOffset(b) || ChunkOffset(b) + ChunkBytes(b) <= ChunkOffset(a)
  }

  /** Request r leaves the bytes w's chunks address alone: it is no file-system write, or none of its chunks meets one of w's. */
  predicate LeavesAlone(r: Request, w: Request)
  {
    r.fs && r.dir == Write ==>
      forall i, j :: 0 <= i < |r.chunks| && 0 <= j < |w.chunks| ==> Apart(r.chunks[i], w.chunks[j])
  }

  /** The bytes chunk j of request k addresses are not changed by later requests that leave them alone. */
  lemma {:induction false} ChunkKeptThrough(disk: seq<Byte>, q: seq<Request>, k: nat, m: nat, j: nat)
    requires AllServiceable(q, |disk|) && k < m <= |q| && q[k].fs && j < |q[k].chunks|
    requires forall i :: k < i < m ==> LeavesAlone(q[i], q[k])
    ensures ChunkFits(q[k].chunks[j], q[k].dir, |disk|)
    ensures ChunkData(DiskAfter(disk, q, m), q[k].chunks[j]) == ChunkData(DiskAfter(disk, q, k + 1), q[k].chunks[j])
    decreases m
  {
    assert Serviceable(q[k], |disk|);
    var c := q[k].chunks[j];
    if m > k + 1 {
      ChunkKeptThrough(disk, q, k, m - 1, j);
      var r, before := q[m - 1], DiskAfter(disk, q, m - 1);
      assert Serviceable(r, |disk|);
      if r.fs && r.dir == Write {
        assert LeavesAlone(r, q[k]);
        var lo, hi := ChunkOffset(c), ChunkOffset(c) + ChunkBytes(c);
        forall b | lo <= b < hi
          ensures DiskAfter(disk, q, m)[b] == before[b]
        {
          forall i | 0 <= i < |r.chunks|
            ensures !(ChunkOffset(r.chunks[i]) <= b < ChunkOffset(r.chunks[i]) + ChunkBytes(r.chunks[i]))
          {
            assert Apart(r.chunks[i], c);
          }
          WriteTouchesOnlyItsChunks(before, r, |r.chunks|, b);
        }
        assert DiskAfter(disk, q, m)[lo..hi] == before[lo..hi];
      }
    }
  }

  /** The bytes chunk j of a later read addresses are still those chunk j of the write brought. */
  lemma ChunkSeenLater(disk: seq<Byte>, q: seq<Request>, k: nat, m: nat, j: nat)
    requires AllServiceable(q, |disk|) && k < m < |q|
    requires q[k].fs && q[k].dir == Write && Consecutive(q[k])
    requires q[m].fs && q[m].dir == Read && SameLayout(q[m], q[k])
    requires forall i :: k < i < m ==> LeavesAlone(q[i], q[k])
    requires j < |q[m].chunks|
    ensures ChunkFits(q[m].chunks[j], Read, |disk|)
    ensures ChunkData(DiskAfter(disk, q, m), q[m].chunks[j]) == q[k].chunks[j].buffer
  {
    var w, rd := q[k], q[m];
    assert Serviceable(w, |disk|) && Serviceable(rd, |disk|);
    var before := DiskAfter(disk, q, k);
    assert DiskAfter(disk, q, k + 1) == WriteChunks(before, w, |w.chunks|);
    ChunkKeptThrough(disk, q, k, m, j);
    ChunkKept(before, w, j, |w.chunks|);
    assert ChunkData(DiskAfter(disk, q, m), rd.chunks[j]) == ChunkData(DiskAfter(disk, q, m), w.chunks[j]);
  }

  /** The read is served the write's buffers, in order. */
  lemma ReadSeesWrite(disk: seq<Byte>, q: seq<Request>, k: nat, m: nat)
    requires AllServiceable(q, |disk|) && k < m < |q|
    requires q[k].fs && q[k].dir == Write && Consecutive(q[k])
    requires q[m].fs && q[m].dir == Read && SameLayout(q[m], q[k])
    requires forall i :: k < i < m ==> LeavesAlone(q[i], q[k])
    ensures ServeOutcome(DiskAfter(disk, q, m), q[m]) == Served(Buffers(q[k]))
  {
    var rd, dm := q[m], DiskAfter(disk, q, m);
    assert Serviceable(rd, |disk|);
    var n := |rd.chunks|;
    ReadChunksPlaces(dm, rd, n);
    forall j | 0 <= j < n
      ensures ReadChunks(dm, rd, n)[j] == Buffers(q[k])[j]
    {
      ChunkSeenLater(disk, q, k, m, j);
    }
    assert ReadChunks(dm, rd, n) == Buffers(q[k]);
  }

  /**
   * Write then read: once the queue is drained, a read that addresses the
   * sectors of an earlier write chunk for chunk, with every request between
   * them leaving those bytes alone, has been handed the written buffers.
   */
  lemma ReadAfterWrite(disk: seq<Byte>, q: seq<Request>, k: nat, m: nat)
    requires AllServiceable(q, |disk|) && k < m < |q|
    requires q[k].fs && q[k].dir == Write && Consecutive(q[k])
    requires q[m].fs && q[m].dir == Read && SameLayout(q[m], q[k])
    requires forall i :: k < i < m ==> LeavesAlone(q[i], q[k])
    ensures Outcomes(disk, q, |q|)[m] == Served(Buffers(q[k]))
  {
    ReadSeesWrite(disk, q, k, m);
    OutcomeStays(disk, q, m, |q|);
  }

  /** Every file-system request of the queue is logged, in queue order, after the records of the requests before it. */
  lemma LoggedInOrder(q: seq<Request>, k: nat, hz: nat)
    requires hz > 0 && AllCompletable(q) && k < |q| && q[k].fs
    ensures |Events(q, k, hz)| < |Events(q, |q|, hz)|
    ensures Events(q, |q|, hz)[|Events(q, k, hz)|] == LogEntry(q[k], hz)
  {
    assert Completable(q[k]);
    EventsGrow(q, k + 1, |q|, hz);
  }

  /** The block layer passes a chunk on only if it lies inside the `nsectors` sectors announced by `set_capacity`. */
  predicate InCapacity(c: Chunk, nsectors: nat)
  {
    c.pos + c.sectors <= nsectors
  }

  /** When the store is a whole number of sectors, every chunk inside the announced capacity lies in it. */
  lemma WholeSectorsFit(size: nat, c: Chunk)
    requires size % SECTOR_SIZE == 0 && InCapacity(c, NSectors(size))
    ensures ChunkOffset(c) + ChunkBytes(c) <= size
  {
    assert NSectors(size) * SECTOR_SIZE == size;
  }

  /**
   * Otherwise the rounded-up capacity announces a last sector that the
   * `size`-byte store only partly holds: a one-sector read of it lies inside
   * the capacity but runs past the end of the store.
   */
  lemma LastSectorOverruns(size: nat)
    requires size % SECTOR_SIZE != 0
    ensures NSectors(size) > 0
    ensures var c := Chunk(NSectors(size) - 1, 1, []);
      InCapacity(c, NSectors(size)) && !ChunkFits(c, Read, size)
  {
    var n := NSectors(size);
    assert size == (size / SECTOR_SIZE) * SECTOR_SIZE + size % SECTOR_SIZE;
    assert n - 1 == size / SECTOR_SIZE;
  }

  /** A store of CapacityBytes(size) bytes holds every chunk inside the announced capacity. */
  lemma CapacityCovered(size: nat, c: Chunk)
    requires InCapacity(c, NSectors(size))
    ensures ChunkOffset(c) + ChunkBytes(c) <= CapacityBytes(size)
  {
    assert CapacityBytes(size) == NSectors(size) * SECTOR_SIZE;
  }

  /**
   * Where the drain loop is: the index of the request it holds (`req`) and
   * how many of that request's chunks it has already ended.
   */
  datatype LoopPos = LoopPos(req: nat, done: nat)

  /** The loop holds request c.req of q and still has a chunk of it to serve. */
  predicate Holds(q: seq<Request>, c: LoopPos)
  {
    && c.req < |q|
    && (q[c.req].fs ==> c.done < |q[c.req].chunks|)
    && (!q[c.req].fs ==> c.done == 0)
  }

  /** The loop holds a request, or has drained the queue. */
  predicate Inside(q: seq<Request>, c: LoopPos)
  {
    c.req >= |q| || Holds(q, c)
  }

  /**
   * One pass of the drain loop as the driver writes it. A file-system
   * request stays held while `__blk_end_request_cur` reports more to do,
   * and the next one is fetched once it is done; a rejected request is
   * ended with `__blk_end_request_all(req, -EIO)` and the loop `continue`s
   * without fetching another, so it holds the same request again.
   */
  function StepAsWritten(q: seq<Request>, c: LoopPos): (n: LoopPos)
    requires AllCompletable(q) && Holds(q, c)
    ensures Inside(q, n)
  {
    var r := q[c.req];
    if !r.fs then c
    else if c.done + 1 < |r.chunks| then LoopPos(c.req, c.done + 1)
    else LoopPos(c.req + 1, 0)
  }

  /**
   * One pass of the drain loop with a rejected request handled as intended:
   * ended, and the next request fetched. Every pass makes progress: it
   * moves to the next chunk of the same request, or to the next request.
   */
  function Step(q: seq<Request>, c: LoopPos): (n: LoopPos)
    requires AllCompletable(q) && Holds(q, c)
    ensures Inside(q, n)
    ensures (n.req == c.req && n.done == c.done + 1 && Holds(q, n)) || (n.req == c.req + 1 && n.done == 0)
    ensures !q[c.req].fs ==> n.req == c.req + 1
  {
    if !q[c.req].fs then LoopPos(c.req + 1, 0) else StepAsWritten(q, c)
  }

  /** The cursor after n passes of the loop as written, stopping when the queue is drained. */
  function RunAsWritten(q: seq<Request>, c: LoopPos, n: nat): LoopPos
    requires AllCompletable(q) && Inside(q, c)
    decreases n
  {
    if n == 0 || c.req >= |q| then c
    else RunAsWritten(q, StepAsWritten(q, c), n - 1)
  }

  /** The cursor after n passes of the intended loop, stopping when the queue is drained. */
  function Run(q: seq<Request>, c: LoopPos, n: nat): LoopPos
    requires AllCompletable(q) && Inside(q, c)
    decreases n
  {
    if n == 0 || c.req >= |q| then c
    else Run(q, Step(q, c), n - 1)
  }

  /**
   * As written, once the loop holds a request that is not a file-system
   * request it never moves on: after any number of passes it holds the
   * same request and has not drained the queue.
   */
  lemma {:induction false} RejectedRequestSpins(q: seq<Request>, c: LoopPos, n: nat)
    requires AllCompletable(q) && Holds(q, c) && !q[c.req].fs
    ensures RunAsWritten(q, c, n) == c && c.req < |q|
  {
    if n > 0 {
      RejectedRequestSpins(q, c, n - 1);
    }
  }

  /** Passes of the loop a request takes: one per chunk, or one to reject it. */
  function PassesOf(r: Request): nat
  {
    if r.fs then |r.chunks| else 1
  }

  /** Passes of the loop the whole queue takes. */
  function Passes(q: seq<Request>): nat
  {
    if q == [] then 0 else PassesOf(q[0]) + Passes(q[1..])
  }

  /** Passes left from cursor c. */
  function Remaining(q: seq<Request>, c: LoopPos): nat
    requires Inside(q, c)
  {
    if c.req >= |q| then 0 else PassesOf(q[c.req]) - c.done + Passes(q[c.req + 1..])
  }

  /** Every pass of the intended loop uses up exactly one of the passes left. */
  lemma StepTakesOnePass(q: seq<Request>, c: LoopPos)
    requires AllCompletable(q) && Holds(q, c)
    ensures Remaining(q, c) > 0 && Remaining(q, Step(q, c)) == Remaining(q, c) - 1
  {
    var n := Step(q, c);
    if n.req == c.req + 1 && n.req < |q| {
      assert q[n.req..][1..] == q[n.req + 1..];
    }
  }

  /** The intended loop drains the queue in exactly the passes left. */
  lemma {:induction false} RunReachesEnd(q: seq<Request>, c: LoopPos)
    requires AllCompletable(q) && Inside(q, c)
    ensures Run(q, c, Remaining(q, c)).req >= |q|
    decreases Remaining(q, c)
  {
    if c.req < |q| {
      StepTakesOnePass(q, c);
      RunReachesEnd(q, Step(q, c));
    }
  }

  /** Started on a queue, the intended loop has drained it after Passes(q) passes. */
  lemma DrainFinishes(q: seq<Request>)
    requires AllCompletable(q)
    ensures Run(q, LoopPos(0, 0), Passes(q)).req == |q|
  {
    if q != [] {
      assert q[1..] == q[0 + 1..];
      RunReachesEnd(q, LoopPos(0, 0));
      RunStaysInQueue(q, LoopPos(0, 0), Passes(q));
    }
  }

  /** The intended loop's cursor never passes the end of the queue. */
  lemma {:induction false} RunStaysInQueue(q: seq<Request>, c: LoopPos, n: nat)
    requires AllCompletable(q) && Inside(q, c) && c.req <= |q|
    ensures Run(q, c, n).req <= |q|
    decreases n
  {
    if n > 0 && c.req < |q| {
      RunStaysInQueue(q, Step(q, c), n - 1);
    }
  }
}
