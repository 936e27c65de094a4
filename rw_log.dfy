/*
 * The I/O log: `rw_log`, a fixed array of LOG_SIZE records written
 * round-robin at `log_ptr`, with `cur_log_size` counting the live records,
 * and the procfs reader `read_func`, which walks the array through the
 * cursor `_proc_off`.
 *
 * The pure function Ring gives the array's contents as a function of every
 * record ever appended; the class keeps its array equal to it.
 */
module RwLog {
  import opened Store

  /** The log holds at most this many records (`LOG_SIZE`). */
  const LOG_SIZE: nat := 100

  /** One log record (`struct rw_info`): direction (0 read, 1 write), first sector, bytes moved, milliseconds. */
  datatype RwInfo = RwInfo(kind: nat, startSector: nat, numBytes: nat, time: nat)

  /** A slot of the statically zeroed array that was never written. */
  const EMPTY_SLOT := RwInfo(0, 0, 0, 0)

  /** One line of the procfs file, the four `%u` fields in the order printed. */
  datatype LogLine = LogLine(time: nat, kind: nat, startSector: nat, numBytes: nat)

  /** What one call of `read_func` yields: end of file, or one formatted record. */
  datatype ProcRead = EndOfFile | Emitted(line: LogLine)

  function Min(a: nat, b: nat): nat
  {
    if a < b then a else b
  }

  /** The line printed for a record; the `(unsigned int)` cast truncates the time. */
  function Line(e: RwInfo): (l: LogLine)
    ensures l.time < U32_MOD && (e.time < U32_MOD ==> l.time == e.time)
    ensures l.kind == e.kind && l.startSector == e.startSector && l.numBytes == e.numBytes
  {
    LogLine(U32(e.time), e.kind, e.startSector, e.numBytes)
  }

  /** The lines printed for a run of records, one per record, in order. */
  function Listing(es: seq<RwInfo>): seq<LogLine>
  {
    seq(|es|, i requires 0 <= i < |es| => Line(es[i]))
  }

  /** The write cursor after one more append: `++log_ptr`, back to 0 at LOG_SIZE. */
  function NextSlot(ptr: nat): (next: nat)
    ensures ptr < LOG_SIZE ==> next < LOG_SIZE && (next == 0 <==> ptr == LOG_SIZE - 1)
  {
    if ptr + 1 == LOG_SIZE then 0 else ptr + 1
  }

  /** The write cursor after k appends to the fresh log. */
  function Cursor(k: nat): (ptr: nat)
    ensures ptr < LOG_SIZE
  {
    if k == 0 then 0 else NextSlot(Cursor(k - 1))
  }

  /** Advancing and wrapping the cursor k times lands on slot k % LOG_SIZE. */
  lemma {:induction false} CursorIsMod(k: nat)
    ensures Cursor(k) == k % LOG_SIZE
  {
    if k > 0 {
      CursorIsMod(k - 1);
    }
  }

  /**
   * The contents of `rw_log` after the records `h` have been appended, in
   * that order, to the zeroed array: each record goes into the slot under
   * the cursor.
   */
  function Ring(h: seq<RwInfo>): (slots: seq<RwInfo>)
    ensures |slots| == LOG_SIZE
    decreases |h|
  {
    if h == [] then seq(LOG_SIZE, _ => EMPTY_SLOT)
    else Ring(h[..|h| - 1])[Cursor(|h| - 1) := h[|h| - 1]]
  }

  /** The records a log that has seen `h` still holds: the last min(|h|, LOG_SIZE), oldest first. */
  function Retained(h: seq<RwInfo>): seq<RwInfo>
  {
    h[|h| - Min(|h|, LOG_SIZE)..]
  }

  /** Two record numbers less than LOG_SIZE apart go to different slots. */
  lemma SlotsDiffer(a: nat, b: nat)
    requires a < b < a + LOG_SIZE
    ensures a % LOG_SIZE != b % LOG_SIZE
  {
    var qa, qb := a / LOG_SIZE, b / LOG_SIZE;
    assert a == qa * LOG_SIZE + a % LOG_SIZE;
    assert b == qb * LOG_SIZE + b % LOG_SIZE;
  }

  /** The slot of record number `base + s` when `base` is a multiple of LOG_SIZE. */
  lemma SlotOfOffset(base: nat, s: nat)
    requires base % LOG_SIZE == 0 && s < LOG_SIZE
    ensures (base + s) % LOG_SIZE == s
  {
    var q := base / LOG_SIZE;
    assert base == q * LOG_SIZE;
  }

  /** Record numbers LOG_SIZE apart share a slot. */
  lemma SlotOfShift(a: nat)
    ensures (a + LOG_SIZE) % LOG_SIZE == a % LOG_SIZE
  {
  }

  /**
   * The last min(|h|, LOG_SIZE) records are all still in the array: record
   * number j sits in slot j % LOG_SIZE.
   */
  lemma {:induction false} RingRetainsLast(h: seq<RwInfo>, j: nat)
    requires |h| - Min(|h|, LOG_SIZE) <= j < |h|
    ensures Ring(h)[j % LOG_SIZE] == h[j]
  {
    var n := |h| - 1;
    CursorIsMod(n);
    if j < n {
      RingRetainsLast(h[..n], j);
      SlotsDiffer(j, n);
    }
  }

  /** RingRetainsLast, for a slot already known to be record j's. */
  lemma RecordInSlot(h: seq<RwInfo>, j: nat, s: nat)
    requires |h| - Min(|h|, LOG_SIZE) <= j < |h| && j % LOG_SIZE == s
    ensures Ring(h)[s] == h[j]
  {
    RingRetainsLast(h, j);
  }

  /**
   * Once the log is full, the slot at the write cursor holds the oldest
   * record still kept, and is the next one overwritten.
   */
  lemma OldestAtCursor(h: seq<RwInfo>)
    requires |h| >= LOG_SIZE
    ensures Ring(h)[|h| % LOG_SIZE] == h[|h| - LOG_SIZE] == Retained(h)[0]
  {
    var a := |h| - LOG_SIZE;
    RingRetainsLast(h, a);
    SlotOfShift(a);
    assert |h| % LOG_SIZE == a % LOG_SIZE;
    assert Retained(h) == h[a..];
  }

  /**
   * One more record: below capacity it is added to the retained records;
   * at capacity it replaces exactly the oldest, the others keeping their order.
   */
  lemma RetainedAfterAppend(h: seq<RwInfo>, e: RwInfo)
    ensures Retained(h + [e]) == (if |h| < LOG_SIZE then Retained(h) else Retained(h)[1..]) + [e]
  {
    var h' := h + [e];
    if |h| < LOG_SIZE {
      assert Retained(h') == h' && Retained(h) == h;
    } else {
      assert Retained(h') == h'[|h'| - LOG_SIZE..];
      assert Retained(h)[1..] == h[|h| - LOG_SIZE + 1..];
      assert h'[|h'| - LOG_SIZE..] == h[|h| - LOG_SIZE + 1..] + [e];
    }
  }

  /** Before the array wraps, slot s holds record number s. */
  lemma SlotBeforeWrap(h: seq<RwInfo>, s: nat)
    requires |h| <= LOG_SIZE && s < |h|
    ensures Ring(h)[s] == h[s]
  {
    assert s % LOG_SIZE == s;
    RingRetainsLast(h, s);
  }

  /** Before the array wraps, the live slots 0..|h|-1 hold the records in arrival order. */
  lemma ReaderOrderBeforeWrap(h: seq<RwInfo>)
    requires |h| <= LOG_SIZE
    ensures Ring(h)[..|h|] == h
  {
    var r := Ring(h);
    forall s | 0 <= s < |h| ensures r[s] == h[s] {
      SlotBeforeWrap(h, s);
    }
  }

  /** Rounding a record count down to a multiple of LOG_SIZE. */
  lemma RoundDown(n: nat)
    ensures (n - n % LOG_SIZE) % LOG_SIZE == 0
    ensures n >= LOG_SIZE ==> n - n % LOG_SIZE >= LOG_SIZE
  {
    var q := n / LOG_SIZE;
    assert n - n % LOG_SIZE == q * LOG_SIZE;
  }

  /** Which record a slot holds once |h| = n >= LOG_SIZE, below and from the cursor n % LOG_SIZE. */
  lemma WrappedSlotRecord(n: nat, s: nat)
    requires n >= LOG_SIZE && s < LOG_SIZE
    ensures s < n % LOG_SIZE ==> (n - n % LOG_SIZE + s) % LOG_SIZE == s
    ensures n % LOG_SIZE <= s ==> (n - LOG_SIZE + (s - n % LOG_SIZE)) % LOG_SIZE == s
  {
    var base := n - n % LOG_SIZE;
    RoundDown(n);
    if s < n % LOG_SIZE {
      SlotOfOffset(base, s);
    } else {
      var below: nat := base - LOG_SIZE;
      SlotOfShift(below);
      SlotOfOffset(below, s);
    }
  }

  /** After the array wraps, a slot s below the cursor p = |h| % LOG_SIZE holds one of the newest p records. */
  lemma SlotBelowCursor(h: seq<RwInfo>, s: nat)
    requires |h| >= LOG_SIZE && s < |h| % LOG_SIZE
    ensures Ring(h)[s] == Retained(h)[LOG_SIZE - |h| % LOG_SIZE + s]
  {
    var n, p := |h|, |h| % LOG_SIZE;
    WrappedSlotRecord(n, s);
    RecordInSlot(h, n - p + s, s);
  }

  /** After the array wraps, a slot s at or above the cursor p = |h| % LOG_SIZE holds one of the older records. */
  lemma SlotFromCursor(h: seq<RwInfo>, s: nat)
    requires |h| >= LOG_SIZE && |h| % LOG_SIZE <= s < LOG_SIZE
    ensures Ring(h)[s] == Retained(h)[s - |h| % LOG_SIZE]
  {
    var n, p := |h|, |h| % LOG_SIZE;
    WrappedSlotRecord(n, s);
    RecordInSlot(h, n - LOG_SIZE + (s - p), s);
  }

  /** `w` turned so that its last p records come first. */
  function Rotated(w: seq<RwInfo>, p: nat): seq<RwInfo>
    requires p <= |w|
  {
    w[|w| - p..] + w[..|w| - p]
  }

  /**
   * After the array wraps, the procfs reader, which starts at slot 0 and not
   * at the oldest record, sees the retained records rotated: the newest
   * |h| % LOG_SIZE first, then the older ones.
   */
  lemma ReaderOrderAfterWrap(h: seq<RwInfo>)
    requires |h| >= LOG_SIZE
    ensures |Retained(h)| == LOG_SIZE
    ensures forall s :: 0 <= s < LOG_SIZE ==> Ring(h)[s] == Rotated(Retained(h), |h| % LOG_SIZE)[s]
  {
    var w, p := Retained(h), |h| % LOG_SIZE;
    forall s | 0 <= s < LOG_SIZE ensures Ring(h)[s] == Rotated(w, p)[s] {
      if s < p {
        SlotBelowCursor(h, s);
      } else {
        SlotFromCursor(h, s);
      }
    }
  }

  /**
   * The log's state (`rw_log`, `log_ptr`, `cur_log_size`) and the procfs
   * reader's cursor (`_proc_off`).
   */
  class ActivityLog {
    const slots: array<RwInfo>   // rw_log
    var logPtr: nat              // log_ptr: the next slot to write
    var curLogSize: nat          // cur_log_size: the number of live records
    var procOff: nat             // _proc_off: the next slot the reader prints
    ghost var History: seq<RwInfo>  // every record ever appended, oldest first

    ghost predicate Valid()
      reads this, slots
    {
      && slots.Length == LOG_SIZE
      && slots[..] == Ring(History)
      && logPtr == |History| % LOG_SIZE
      && curLogSize == Min(|History|, LOG_SIZE)
    }

    /** The log as the module loads it: the array zeroed, both counters and the reader cursor at 0. */
    constructor ()
      ensures Valid() && fresh(slots)
      ensures History == [] && logPtr == 0 && curLogSize == 0 && procOff == 0
    {
      slots := new RwInfo[LOG_SIZE](_ => EMPTY_SLOT);
      logPtr, curLogSize, procOff := 0, 0, 0;
      History := [];
    }

    /**
     * Records one completed request: writes slot `log_ptr`, bumps
     * `cur_log_size` and clamps it at LOG_SIZE, then advances `log_ptr`,
     * wrapping to 0.
     */
    method Append(e: RwInfo)
      requires Valid()
      modifies this, slots
      ensures Valid() && History == old(History) + [e]
      ensures slots[old(logPtr)] == e
      ensures forall s :: 0 <= s < LOG_SIZE && s != old(logPtr) ==> slots[s] == old(slots[s])
      ensures curLogSize == Min(old(curLogSize) + 1, LOG_SIZE) <= LOG_SIZE
      ensures logPtr == (old(logPtr) + 1) % LOG_SIZE < LOG_SIZE
      ensures procOff == old(procOff)
    {
      ghost var h := History + [e];
      assert h[..|h| - 1] == History;
      CursorIsMod(|History|);
      slots[logPtr] := e;
      curLogSize := curLogSize + 1;
      if curLogSize > LOG_SIZE {
        curLogSize := LOG_SIZE;
      }
      logPtr := logPtr + 1;
      if logPtr == LOG_SIZE {
        logPtr := 0;
      }
      History := h;
    }

    /**
     * One call of `read_func` at file offset `off`. Offset 0 restarts the
     * walk at slot 0. Past the live records it reports end of file;
     * otherwise it prints the record under the cursor and advances it.
     */
    method ReadProc(off: int) returns (r: ProcRead)
      requires Valid()
      modifies this`procOff
      ensures var cursor := if off == 0 then 0 else old(procOff);
        if cursor >= curLogSize then r == EndOfFile && procOff == cursor
        else r == Emitted(Line(slots[cursor])) && procOff == cursor + 1
    {
      if off == 0 {
        procOff := 0;
      }
      if procOff >= curLogSize {
        return EndOfFile;
      }
      r := Emitted(Line(slots[procOff]));
      procOff := procOff + 1;
    }

    /**
     * A whole read of the procfs file: one call at offset 0, then calls at
     * growing non-zero offsets until end of file. It prints the live slots
     * 0..cur_log_size-1 in index order.
     */
    method ReadAll() returns (lines: seq<LogLine>)
      requires Valid()
      modifies this`procOff
      ensures lines == Listing(slots[..curLogSize]) && procOff == curLogSize
      ensures |History| <= LOG_SIZE ==> lines == Listing(History)
      ensures |History| >= LOG_SIZE ==> lines == Listing(Rotated(Retained(History), |History| % LOG_SIZE))
    {
      var off := 0;
      lines := [];
      var r := ReadProc(off);
      while r.Emitted?
        invariant Valid()
        invariant r.Emitted? ==> 0 < procOff <= curLogSize && lines + [r.line] == Listing(slots[..procOff])
        invariant r.EndOfFile? ==> procOff == curLogSize && lines == Listing(slots[..procOff])
        decreases curLogSize - procOff + (if r.Emitted? then 1 else 0)
      {
        lines := lines + [r.line];
        off := off + 1;
        r := ReadProc(off);
      }
      if |History| <= LOG_SIZE {
        ReaderOrderBeforeWrap(History);
      }
      if |History| >= LOG_SIZE {
        ReaderOrderAfterWrap(History);
      }
    }
  }
}
