/*
 * The ramdisk itself: the byte store `_ramdisk_data`, the capacity
 * announced to the block layer, the activity log, and `ramdisk_request`,
 * which drains the request queue into the store and the log.
 */
module Driver {
  import opened Store
  import opened RwLog
  import opened Requests

  /** The store after the first k chunks of r have been served: only a file-system write moves bytes. */
  function Partial(disk: seq<Byte>, r: Request, k: nat): seq<Byte>
    requires Serviceable(r, |disk|) && (r.fs ==> k <= |r.chunks|)
  {
    if r.fs && r.dir == Write then WriteChunks(disk, r, k) else disk
  }

  /** The bytes the first k chunks of r have copied out to its originator: only a file-system read copies any. */
  function Copied(disk: seq<Byte>, r: Request, k: nat): seq<seq<Byte>>
    requires Serviceable(r, |disk|) && (r.fs ==> k <= |r.chunks|)
  {
    if r.fs && r.dir == Read then ReadChunks(disk, r, k) else []
  }

  /**
   * Serving chunk k of a file-system request: it lies inside the store; a
   * write copies its buffer over the addressed bytes, a read hands the
   * addressed bytes to the originator and leaves the store as it is.
   */
  lemma ChunkServed(disk: seq<Byte>, r: Request, k: nat)
    requires Serviceable(r, |disk|) && r.fs && k < |r.chunks|
    ensures ChunkFits(r.chunks[k], r.dir, |disk|) && |Partial(disk, r, k)| == |disk|
    ensures r.dir == Write ==> Partial(disk, r, k + 1) == Overwrite(Partial(disk, r, k), ChunkOffset(r.chunks[k]), r.chunks[k].buffer)
    ensures r.dir == Read ==> Partial(disk, r, k + 1) == Partial(disk, r, k) == disk
    ensures r.dir == Read ==> Copied(disk, r, k + 1) == Copied(disk, r, k) + [ChunkData(disk, r.chunks[k])]
    ensures r.dir == Write ==> Copied(disk, r, k + 1) == Copied(disk, r, k) == []
  {
    assert ChunkFits(r.chunks[k], r.dir, |disk|);
  }

  /** The cursor is on a request of the queue or just past its end. */
  predicate Within(q: seq<Request>, c: LoopPos)
  {
    Inside(q, c) && c.req <= |q|
  }

  /** The store when the drain loop, started on store d0, reaches cursor c. */
  function StoreAt(d0: seq<Byte>, q: seq<Request>, c: LoopPos): seq<Byte>
    requires AllServiceable(q, |d0|) && Within(q, c)
  {
    if c.req < |q| then Partial(DiskAfter(d0, q, c.req), q[c.req], c.done) else DiskAfter(d0, q, |q|)
  }

  /** The bytes the held request has copied out when the loop reaches cursor c. */
  function GotAt(d0: seq<Byte>, q: seq<Request>, c: LoopPos): seq<seq<Byte>>
    requires AllServiceable(q, |d0|) && Within(q, c)
  {
    if c.req < |q| then Copied(DiskAfter(d0, q, c.req), q[c.req], c.done) else []
  }

  /** When the loop fetches request k, the store is the one after the first k requests and nothing is copied out yet. */
  lemma AtRequestStart(d0: seq<Byte>, q: seq<Request>, k: nat)
    requires AllServiceable(q, |d0|) && k <= |q|
    ensures Within(q, LoopPos(k, 0))
    ensures StoreAt(d0, q, LoopPos(k, 0)) == DiskAfter(d0, q, k) && GotAt(d0, q, LoopPos(k, 0)) == []
  {
    if k < |q| {
      assert Serviceable(q[k], |d0|);
    }
  }

  /** A rejected request leaves the store and the log alone and hands back `-EIO`. */
  lemma RejectPass(d0: seq<Byte>, q: seq<Request>, c: LoopPos, hz: nat)
    requires AllServiceable(q, |d0|) && Holds(q, c) && !q[c.req].fs && hz > 0
    ensures AllCompletable(q) && Within(q, Step(q, c))
    ensures StoreAt(d0, q, Step(q, c)) == StoreAt(d0, q, c)
    ensures GotAt(d0, q, Step(q, c)) == [] && GotAt(d0, q, c) == []
    ensures Outcomes(d0, q, c.req + 1) == Outcomes(d0, q, c.req) + [Failed]
    ensures Events(q, c.req + 1, hz) == Events(q, c.req, hz)
  {
    RejectedRequestChangesNothing(d0, q, c.req, hz);
  }

  /** A write's chunk other than its last: the chunk's buffer lands on the addressed bytes. */
  lemma WritePass(d0: seq<Byte>, q: seq<Request>, c: LoopPos)
    requires AllServiceable(q, |d0|) && Holds(q, c) && q[c.req].fs && q[c.req].dir == Write
    requires c.done + 1 < |q[c.req].chunks|
    ensures AllCompletable(q) && Within(q, Step(q, c)) && Step(q, c).req == c.req
    ensures var ch := q[c.req].chunks[c.done];
      && ChunkFits(ch, Write, |d0|) && |StoreAt(d0, q, c)| == |d0|
      && StoreAt(d0, q, Step(q, c)) == Overwrite(StoreAt(d0, q, c), ChunkOffset(ch), ch.buffer)
    ensures GotAt(d0, q, Step(q, c)) == GotAt(d0, q, c) == []
  {
    ChunkServed(DiskAfter(d0, q, c.req), q[c.req], c.done);
  }

  /**
   * After the last pass over a request the loop fetches the next one: it
   * holds it (or has drained the queue), with the store the earlier
   * requests left and nothing copied out yet.
   */
  lemma NextRequest(d0: seq<Byte>, q: seq<Request>, c: LoopPos)
    requires AllServiceable(q, |d0|) && Holds(q, c)
    requires !q[c.req].fs || c.done + 1 == |q[c.req].chunks|
    ensures AllCompletable(q) && Step(q, c) == LoopPos(c.req + 1, 0) && Within(q, Step(q, c))
    ensures StoreAt(d0, q, Step(q, c)) == DiskAfter(d0, q, c.req + 1) && GotAt(d0, q, Step(q, c)) == []
  {
    assert Serviceable(q[c.req], |d0|);
    AtRequestStart(d0, q, c.req + 1);
  }

  /** Copying in a write's last chunk leaves the store the write produces, and the write succeeds. */
  lemma WriteCompletes(d0: seq<Byte>, q: seq<Request>, c: LoopPos)
    requires AllServiceable(q, |d0|) && Holds(q, c) && q[c.req].fs && q[c.req].dir == Write
    requires c.done + 1 == |q[c.req].chunks|
    ensures var ch := q[c.req].chunks[c.done];
      && ChunkFits(ch, Write, |d0|) && |StoreAt(d0, q, c)| == |d0| && GotAt(d0, q, c) == []
      && DiskAfter(d0, q, c.req + 1) == Overwrite(StoreAt(d0, q, c), ChunkOffset(ch), ch.buffer)
      && Outcomes(d0, q, c.req + 1) == Outcomes(d0, q, c.req) + [Served([])]
  {
    var before, r := DiskAfter(d0, q, c.req), q[c.req];
    ChunkServed(before, r, c.done);
    RequestEnds(d0, q, c.req, 1);
    assert StoreAt(d0, q, c) == WriteChunks(before, r, c.done);
    assert DiskAfter(d0, q, c.req + 1) == WriteChunks(before, r, c.done + 1);
  }

  /** A read's chunk other than its last: the addressed bytes go to the originator, the store stays as it is. */
  lemma ReadPass(d0: seq<Byte>, q: seq<Request>, c: LoopPos)
    requires AllServiceable(q, |d0|) && Holds(q, c) && q[c.req].fs && q[c.req].dir == Read
    requires c.done + 1 < |q[c.req].chunks|
    ensures AllCompletable(q) && Within(q, Step(q, c)) && Step(q, c).req == c.req
    ensures var ch := q[c.req].chunks[c.done];
      && ChunkFits(ch, Read, |d0|) && |StoreAt(d0, q, c)| == |d0|
      && StoreAt(d0, q, Step(q, c)) == StoreAt(d0, q, c)
      && GotAt(d0, q, Step(q, c)) == GotAt(d0, q, c) + [ChunkData(StoreAt(d0, q, c), ch)]
  {
    ChunkServed(DiskAfter(d0, q, c.req), q[c.req], c.done);
  }

  /** Serving a read's last chunk hands its originator the bytes of every chunk, in order. */
  lemma ReadCompletes(d0: seq<Byte>, q: seq<Request>, c: LoopPos)
    requires AllServiceable(q, |d0|) && Holds(q, c) && q[c.req].fs && q[c.req].dir == Read
    requires c.done + 1 == |q[c.req].chunks|
    ensures var ch := q[c.req].chunks[c.done];
      && ChunkFits(ch, Read, |d0|) && |StoreAt(d0, q, c)| == |d0|
      && DiskAfter(d0, q, c.req + 1) == StoreAt(d0, q, c) == DiskAfter(d0, q, c.req)
      && Outcomes(d0, q, c.req + 1) == Outcomes(d0, q, c.req) + [Served(GotAt(d0, q, c) + [ChunkData(StoreAt(d0, q, c), ch)])]
  {
    var before, r := DiskAfter(d0, q, c.req), q[c.req];
    ChunkServed(before, r, c.done);
    RequestEnds(d0, q, c.req, 1);
  }

  /** Ending request k adds its outcome to the outcomes and, for a file-system request, its record to the log. */
  lemma RequestEnds(d0: seq<Byte>, q: seq<Request>, k: nat, hz: nat)
    requires AllServiceable(q, |d0|) && k < |q| && hz > 0
    ensures AllCompletable(q)
    ensures Outcomes(d0, q, k + 1) == Outcomes(d0, q, k) + [ServeOutcome(DiskAfter(d0, q, k), q[k])]
    ensures Events(q, k + 1, hz) == Events(q, k, hz) + (if q[k].fs then [LogEntry(q[k], hz)] else [])
  {
    assert Completable(q[k]);
  }

  /**
   * What the drain loop, started on store d0 with log history h0, has
   * produced when it reaches cursor c: the store, the log's history, the
   * bytes the held request has copied out and the outcomes handed back.
   */
  ghost predicate Tracks(q: seq<Request>, d0: seq<Byte>, h0: seq<RwInfo>, hz: nat, c: LoopPos,
                         store: seq<Byte>, history: seq<RwInfo>, got: seq<seq<Byte>>, outcomes: seq<Outcome>)
  {
    && hz > 0 && AllServiceable(q, |d0|) && Within(q, c)
    && store == StoreAt(d0, q, c) && got == GotAt(d0, q, c)
    && outcomes == Outcomes(d0, q, c.req) && history == h0 + Events(q, c.req, hz)
  }

  /**
   * Ending a write with its last chunk: the buffer lands on the addressed
   * bytes, the request is logged, its originator is told it succeeded, and
   * the loop fetches the next request.
   */
  lemma LastWriteAdvances(q: seq<Request>, d0: seq<Byte>, h0: seq<RwInfo>, hz: nat, c: LoopPos,
                          store: seq<Byte>, history: seq<RwInfo>, got: seq<seq<Byte>>, outcomes: seq<Outcome>)
    requires Tracks(q, d0, h0, hz, c, store, history, got, outcomes) && c.req < |q|
    requires q[c.req].fs && q[c.req].dir == Write && c.done + 1 == |q[c.req].chunks|
    ensures var ch := q[c.req].chunks[c.done];
      && ChunkFits(ch, Write, |store|) && got == []
      && Tracks(q, d0, h0, hz, Step(q, c), Overwrite(store, ChunkOffset(ch), ch.buffer),
                history + [LogEntry(q[c.req], hz)], [], outcomes + [Served(got)])
  {
    WriteCompletes(d0, q, c);
    NextRequest(d0, q, c);
    RequestEnds(d0, q, c.req, hz);
  }

  /**
   * Ending a read with its last chunk: the addressed bytes join the ones
   * already copied out, the request is logged, its originator gets every
   * chunk's bytes in order, and the loop fetches the next request.
   */
  lemma LastReadAdvances(q: seq<Request>, d0: seq<Byte>, h0: seq<RwInfo>, hz: nat, c: LoopPos,
                         store: seq<Byte>, history: seq<RwInfo>, got: seq<seq<Byte>>, outcomes: seq<Outcome>)
    requires Tracks(q, d0, h0, hz, c, store, history, got, outcomes) && c.req < |q|
    requires q[c.req].fs && q[c.req].dir == Read && c.done + 1 == |q[c.req].chunks|
    ensures var ch := q[c.req].chunks[c.done];
      && ChunkFits(ch, Read, |store|)
      && Tracks(q, d0, h0, hz, Step(q, c), store,
                history + [LogEntry(q[c.req], hz)], [], outcomes + [Served(got + [ChunkData(store, ch)])])
  {
    ReadCompletes(d0, q, c);
    NextRequest(d0, q, c);
    RequestEnds(d0, q, c.req, hz);
  }

  class Ramdisk {
    const data: array<Byte>      // _ramdisk_data, the size rounded up to whole sectors
    const nsectors: nat          // the capacity passed to set_capacity
    const hz: nat                // HZ, the kernel's tick rate
    const log: ActivityLog       // rw_log and its cursors

    ghost predicate Valid()
      reads this, log, log.slots
    {
      hz > 0 && log.Valid() && nsectors == NSectors(data.Length)
    }

    /**
     * `ramdisk_init` as far as the store is concerned: the store is zeroed
     * and announced as NSectors(size) sectors, and the log starts empty.
     * The store is `size` rounded up to whole sectors, so every announced
     * sector lies in it; `vmalloc(ramdisk_size)` allocates only `size` bytes,
     * which LastSectorOverruns shows too few when `size` is not a multiple of 512.
     */
    constructor (size: nat, hz: nat)
      requires hz > 0
      ensures Valid() && fresh(data) && fresh(log) && fresh(log.slots)
      ensures data.Length == CapacityBytes(size) && data[..] == seq(data.Length, _ => 0 as Byte)
      ensures nsectors == NSectors(size) && size <= data.Length
      ensures forall c :: InCapacity(c, nsectors) ==> ChunkOffset(c) + ChunkBytes(c) <= data.Length
      ensures this.hz == hz
      ensures log.History == [] && log.procOff == 0
    {
      data := new Byte[CapacityBytes(size)](_ => 0 as Byte);
      nsectors := NSectors(size);
      this.hz := hz;
      log := new ActivityLog();
      forall c | InCapacity(c, NSectors(size))
        ensures ChunkOffset(c) + ChunkBytes(c) <= CapacityBytes(size)
      {
        CapacityCovered(size, c);
      }
    }

    /** `memcpy(_ramdisk_data + offset, src, |src|)`. */
    method CopyIn(offset: nat, src: seq<Byte>)
      requires offset + |src| <= data.Length
      modifies data
      ensures data[..] == Overwrite(old(data[..]), offset, src)
    {
      forall i | offset <= i < offset + |src| {
        data[i] := src[i - offset];
      }
    }

    /**
     * The body of one pass over a chunk: `offset = blk_rq_pos * 512`,
     * `num_bytes = blk_rq_cur_sectors * 512`, then a write copies the
     * chunk's buffer into the store there and a read copies the bytes there
     * out to the originator.
     */
    method ServeChunk(ch: Chunk, dir: Direction, got: seq<seq<Byte>>) returns (got': seq<seq<Byte>>)
      requires ChunkFits(ch, dir, data.Length)
      modifies data
      ensures dir == Write ==> data[..] == Overwrite(old(data[..]), ChunkOffset(ch), ch.buffer) && got' == got
      ensures dir == Read ==> data[..] == old(data[..]) && got' == got + [ChunkData(old(data[..]), ch)]
    {
      var offset := ch.pos * SECTOR_SIZE;
      if dir == Write {
        CopyIn(offset, ch.buffer);
        got' := got;
      } else {
        var bytes := CopyOut(ch);
        got' := got + [bytes];
      }
    }

    /**
     * The read half of a pass: the `num_bytes` bytes at `offset` are copied
     * out of the store, byte for byte, and the store is left as it is.
     */
    method CopyOut(ch: Chunk) returns (bytes: seq<Byte>)
      requires ChunkFits(ch, Read, data.Length)
      ensures |bytes| == ch.sectors * SECTOR_SIZE
      ensures forall i :: 0 <= i < |bytes| ==> bytes[i] == data[ch.pos * SECTOR_SIZE + i]
      ensures bytes == ChunkData(data[..], ch)
    {
      var offset := ch.pos * SECTOR_SIZE;
      var numBytes := ch.sectors * SECTOR_SIZE;
      bytes := data[offset..offset + numBytes];
    }

    /**
     * Logging a completed request r: its direction, `blk_rq_pos` and
     * `num_bytes` as its last chunk left them, and `(jiffies * 1000) / HZ`,
     * go into the next slot of the ring.
     */
    method LogCompletion(r: Request)
      requires Valid() && |r.chunks| > 0
      modifies log, log.slots
      ensures Valid() && log.History == old(log.History) + [LogEntry(r, hz)]
      ensures log.procOff == old(log.procOff)
    {
      var ch := r.chunks[|r.chunks| - 1];
      var numBytes := ch.sectors * SECTOR_SIZE;
      log.Append(RwInfo(DirBit(r.dir), U32(ch.pos), U32(numBytes), Millis(r.jiffies, hz)));
    }

    /**
     * The drain loop, started on store d0 and log history h0, has reached
     * cursor c: the store, the bytes the held read has copied out, the
     * outcomes handed back and the log are those of the queue served up to c.
     */
    ghost predicate Reached(queue: seq<Request>, d0: seq<Byte>, h0: seq<RwInfo>, c: LoopPos,
                            got: seq<seq<Byte>>, outcomes: seq<Outcome>)
      reads this, data, log, log.slots
    {
      && Valid() && data.Length == |d0|
      && Tracks(queue, d0, h0, hz, c, data[..], log.History, got, outcomes)
    }

    /**
     * A pass over a chunk of a file-system request that is not its last:
     * the chunk is served and `__blk_end_request_cur` reports more to do.
     */
    method MiddlePass(queue: seq<Request>, ghost d0: seq<Byte>, ghost h0: seq<RwInfo>, c: LoopPos,
                      got: seq<seq<Byte>>, outcomes: seq<Outcome>) returns (got': seq<seq<Byte>>)
      requires Reached(queue, d0, h0, c, got, outcomes) && c.req < |queue| && queue[c.req].fs
      requires c.done + 1 < |queue[c.req].chunks|
      modifies data
      ensures Reached(queue, d0, h0, Step(queue, c), got', outcomes)
    {
      var r := queue[c.req];
      if r.dir == Write { WritePass(d0, queue, c); } else { ReadPass(d0, queue, c); }
      got' := ServeChunk(r.chunks[c.done], r.dir, got);
    }

    /**
     * A pass over the last chunk of a file-system write: the chunk is
     * copied in, `__blk_end_request_cur` reports the request complete, the
     * request is logged and its originator told it succeeded.
     */
    method LastWrite(queue: seq<Request>, ghost d0: seq<Byte>, ghost h0: seq<RwInfo>, c: LoopPos,
                     got: seq<seq<Byte>>, outcomes: seq<Outcome>) returns (outcomes': seq<Outcome>)
      requires Reached(queue, d0, h0, c, got, outcomes) && c.req < |queue| && queue[c.req].fs
      requires queue[c.req].dir == Write && c.done + 1 == |queue[c.req].chunks|
      modifies data, log, log.slots
      ensures Reached(queue, d0, h0, Step(queue, c), [], outcomes')
      ensures log.procOff == old(log.procOff)
    {
      var r := queue[c.req];
      LastWriteAdvances(queue, d0, h0, hz, c, data[..], log.History, got, outcomes);
      var served := ServeChunk(r.chunks[c.done], r.dir, got);
      LogCompletion(r);
      outcomes' := outcomes + [Served(served)];
    }

    /**
     * A pass over the last chunk of a file-system read: the chunk's bytes
     * are copied out, `__blk_end_request_cur` reports the request complete,
     * the request is logged and its originator gets every chunk's bytes.
     */
    method LastRead(queue: seq<Request>, ghost d0: seq<Byte>, ghost h0: seq<RwInfo>, c: LoopPos,
                    got: seq<seq<Byte>>, outcomes: seq<Outcome>) returns (outcomes': seq<Outcome>)
      requires Reached(queue, d0, h0, c, got, outcomes) && c.req < |queue| && queue[c.req].fs
      requires queue[c.req].dir == Read && c.done + 1 == |queue[c.req].chunks|
      modifies log, log.slots
      ensures Reached(queue, d0, h0, Step(queue, c), [], outcomes')
      ensures log.procOff == old(log.procOff)
    {
      var r := queue[c.req];
      LastReadAdvances(queue, d0, h0, hz, c, data[..], log.History, got, outcomes);
      var bytes := CopyOut(r.chunks[c.done]);
      LogCompletion(r);
      outcomes' := outcomes + [Served(got + [bytes])];
    }

    /**
     * `ramdisk_request`: drain the queue. A request that is not a
     * file-system request is failed and the next one fetched. A file-system
     * request is served chunk by chunk; when `__blk_end_request_cur`
     * reports its last chunk ended, the request is logged and the next one
     * fetched. The store, the originators' outcomes and the log end up as
     * the pure descriptions DiskAfter, Outcomes and Events say.
     */
    method Drain(queue: seq<Request>) returns (outcomes: seq<Outcome>)
      requires Valid() && AllServiceable(queue, data.Length)
      modifies data, log, log.slots
      ensures Valid() && AllCompletable(queue)
      ensures data[..] == DiskAfter(old(data[..]), queue, |queue|)
      ensures outcomes == Outcomes(old(data[..]), queue, |queue|)
      ensures log.History == old(log.History) + Events(queue, |queue|, hz)
      ensures log.procOff == old(log.procOff)
    {
      ghost var d0 := data[..];
      ghost var h0 := log.History;
      assert AllCompletable(queue);
      var c := LoopPos(0, 0);
      var got: seq<seq<Byte>> := [];
      outcomes := [];
      AtRequestStart(d0, queue, 0);
      while c.req < |queue|
        invariant Reached(queue, d0, h0, c, got, outcomes)
        invariant log.procOff == old(log.procOff)
        decreases Remaining(queue, c)
      {
        StepTakesOnePass(queue, c);
        if !queue[c.req].fs {
          RejectPass(d0, queue, c, hz);
          // __blk_end_request_all(req, -EIO)
          outcomes := outcomes + [Failed];
        } else if c.done + 1 < |queue[c.req].chunks| {
          got := MiddlePass(queue, d0, h0, c, got, outcomes);
        } else if queue[c.req].dir == Write {
          outcomes := LastWrite(queue, d0, h0, c, got, outcomes);
          got := [];
        } else {
          outcomes := LastRead(queue, d0, h0, c, got, outcomes);
          got := [];
        }
        c := Step(queue, c);
      }
    }
  }
}
