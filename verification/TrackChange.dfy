/**
  The double-buffered bitmap of changed inode files.  A writer sets bits in the
  current buffer under a lock; a flush thread swaps the buffers under the same
  lock and then, without it, merges the buffer it took into the file.  Both are
  modelled as one state machine whose steps may interleave in any order.
 */
module TrackChange {

  const MAX_SLICES := 256
  const BITMAP_BYTES := 1024
  const MAX_BUFFER := 16
  const CHUNK_BYTES := MAX_SLICES * BITMAP_BYTES / MAX_BUFFER

  /** The bit of a tracked file. */
  function BitOf(slice: nat, fileId: nat): nat {
    fileId % BITMAP_BYTES + slice * (BITMAP_BYTES * 8)
  }

  /** The part of the bitmap that a bit is in; parts are allocated and flushed one by one. */
  function ChunkOf(bit: nat): nat {
    bit / 8 / CHUNK_BYTES
  }

  /** A slice's file has a bit inside the bitmap, shared only with files of the same slice 1024 apart. */
  lemma BitInBitmap(slice: nat, fileId: nat, slice': nat, fileId': nat)
    requires slice < MAX_SLICES
    ensures ChunkOf(BitOf(slice, fileId)) < MAX_BUFFER
    ensures BitOf(slice, fileId) == BitOf(slice', fileId') <==> slice == slice' && fileId % BITMAP_BYTES == fileId' % BITMAP_BYTES
  {
    var low, low' := fileId % BITMAP_BYTES, fileId' % BITMAP_BYTES;
    assert low < 1024 && low' < 1024;
    assert BitOf(slice, fileId) == low + slice * 8192 && BitOf(slice', fileId') == low' + slice' * 8192;
    Scaled(low, slice);
    SplitUnique(low, slice, low', slice');
  }

  /** The bits of slice 0 are those of its first 1024 files in order, each slice follows 8192 bits on, and files repeat after 1024. */
  lemma BitLaws(slice: nat, fileId: nat)
    ensures fileId < BITMAP_BYTES ==> BitOf(0, fileId) == fileId
    ensures BitOf(slice + 1, fileId) == BitOf(slice, fileId) + 8 * BITMAP_BYTES
    ensures BitOf(slice, fileId + BITMAP_BYTES) == BitOf(slice, fileId)
  {}

  lemma Scaled(low: nat, slice: nat)
    requires low < 8192 && slice < MAX_SLICES
    ensures ChunkOf(low + slice * 8192) < MAX_BUFFER
  {
    var byte := (low + slice * 8192) / 8;
    assert byte < 262144;
    assert CHUNK_BYTES == 16384;
    assert byte / 16384 < 16;
  }

  lemma SplitUnique(low: nat, slice: nat, low': nat, slice': nat)
    requires low < 8192 && low' < 8192
    ensures low + slice * 8192 == low' + slice' * 8192 <==> low == low' && slice == slice'
  {}

  /** One of the two buffers: its bits, the summary mask of its chunks, and which chunks exist. */
  datatype Buf = Buf(bits: set<nat>, mask: set<nat>, present: set<nat>)

  /** Where the flush thread is: outside, or flushing chunk i of the buffer it took. */
  datatype Flusher = Outside | Flushing(taken: bool, i: nat)

  /** The two buffers are buf(false) and buf(true). */
  datatype State = State(buf0: Buf, buf1: Buf, cur: bool, disk: set<nat>, flusher: Flusher) {
    function Get(k: bool): Buf {
      if k then buf1 else buf0
    }

    function Put(k: bool, b: Buf): State {
      if k then this.(buf1 := b) else this.(buf0 := b)
    }
  }

  /** What either thread can do, with the outcome of the system calls involved. */
  datatype Action =
    | SetBit(bit: nat, memory: bool)   // expt_set_bit; memory: is there memory for a new chunk
    | FlushNothing                     // both masks are clear
    | FlushNoMemory                    // no memory for the read buffer: gives up, returning 0
    | FlushSwap                        // take the current buffer
    | FlushChunk(read: nat, written: nat)   // read and merge so many bytes of chunk i, write so many, clear it; or skip it
    | FlushWriteFails(read: nat)       // so many bytes were merged, but the chunk could not be written
    | FlushFails                       // open, lock or read error
    | FlushDone                        // clear the mask

  predicate Enabled(s: State, a: Action) {
    match a
    case SetBit(bit, _) => ChunkOf(bit) < MAX_BUFFER
    case FlushNothing => s.flusher.Outside? && s.buf0.mask == {} && s.buf1.mask == {}
    case FlushNoMemory => s.flusher.Outside? && (s.buf0.mask != {} || s.buf1.mask != {})
    case FlushSwap => s.flusher.Outside? && (s.buf0.mask != {} || s.buf1.mask != {})
    case FlushChunk(read, written) =>
      s.flusher.Flushing? && s.flusher.i < MAX_BUFFER && 0 < read <= CHUNK_BYTES && written <= CHUNK_BYTES
    case FlushWriteFails(_) => s.flusher.Flushing? && s.flusher.i < MAX_BUFFER && s.flusher.i in s.Get(s.flusher.taken).mask
    case FlushFails => s.flusher.Flushing?
    case FlushDone => s.flusher.Flushing? && s.flusher.i == MAX_BUFFER
  }

  /** A flush of a chunk whose read and whose write were complete. */
  predicate Complete(a: Action) {
    a.FlushChunk? && a.read == a.written == CHUNK_BYTES
  }

  function InChunk(bits: set<nat>, i: nat): set<nat> {
    set b | b in bits && ChunkOf(b) == i
  }

  /** Those of the bits that lie in the first n bytes of chunk i. */
  function Within(bits: set<nat>, i: nat, n: nat): set<nat> {
    set b | b in bits && b / 8 < i * CHUNK_BYTES + n
  }

  function Step(s: State, a: Action): State
    requires Enabled(s, a)
  {
    match a
    case SetBit(bit, memory) =>
      var b, chunk := s.Get(s.cur), ChunkOf(bit);
      if chunk !in b.present && !memory then s
      else s.Put(s.cur, Buf(b.bits + {bit}, b.mask + {chunk}, b.present + {chunk}))
    case FlushNothing => s
    case FlushNoMemory => s
    case FlushSwap => s.(cur := !s.cur, flusher := Flushing(s.cur, 0))
    case FlushChunk(read, written) =>
      var k, i := s.flusher.taken, s.flusher.i;
      var b := s.Get(k);
      var s' := s.(flusher := Flushing(k, i + 1));
      if i !in b.mask then s'
      else
        var mine, theirs := InChunk(b.bits, i), InChunk(s.disk, i);
        var merged := mine + Within(theirs, i, read);
        s'.Put(k, b.(bits := b.bits - mine)).(disk := (s.disk - Within(theirs, i, written)) + Within(merged, i, written))
    case FlushWriteFails(read) =>
      var k, i := s.flusher.taken, s.flusher.i;
      var b := s.Get(k);
      s.Put(k, b.(bits := b.bits + Within(InChunk(s.disk, i), i, read))).(flusher := Outside)
    case FlushFails => s.(flusher := Outside)
    case FlushDone => s.Put(s.flusher.taken, s.Get(s.flusher.taken).(mask := {})).(flusher := Outside)
  }

  /** The bit is recorded, unless it needed a new chunk and there was no memory. */
  predicate Recorded(s: State, a: Action) {
    a.SetBit? && (ChunkOf(a.bit) in s.Get(s.cur).present || a.memory)
  }

  // ------------------------------------------------------------------------- runs

  ghost predicate Runnable(s: State, run: seq<Action>)
    decreases |run|
  {
    run == [] || (Enabled(s, run[0]) && Runnable(Step(s, run[0]), run[1..]))
  }

  ghost function Run(s: State, run: seq<Action>): State
    requires Runnable(s, run)
    decreases |run|
  {
    if run == [] then s else Run(Step(s, run[0]), run[1..])
  }

  /** All the bits that a run records. */
  ghost function AllRecorded(s: State, run: seq<Action>): set<nat>
    requires Runnable(s, run)
    decreases |run|
  {
    if run == [] then {}
    else (if Recorded(s, run[0]) then {run[0].bit} else {}) + AllRecorded(Step(s, run[0]), run[1..])
  }

  /** Every bit of a buffer is in a chunk that the mask announces; flushed chunks are empty. */
  ghost predicate Inv(s: State) {
    && (forall b :: b in s.buf0.bits ==> ChunkOf(b) in s.buf0.mask)
    && (forall b :: b in s.buf1.bits ==> ChunkOf(b) in s.buf1.mask)
    && (forall i :: i in s.buf0.mask ==> i < MAX_BUFFER)
    && (forall i :: i in s.buf1.mask ==> i < MAX_BUFFER)
    && (s.flusher.Flushing? ==>
          && s.flusher.taken != s.cur && s.flusher.i <= MAX_BUFFER
          && forall b :: b in s.Get(s.flusher.taken).bits ==> ChunkOf(b) >= s.flusher.i)
  }

  ghost function Union(s: State): set<nat> {
    s.disk + s.buf0.bits + s.buf1.bits
  }

  lemma StepKeepsInv(s: State, a: Action)
    requires Enabled(s, a) && Inv(s)
    ensures Inv(Step(s, a))
  {}

  /** Bits of the buffer being flushed that a short write leaves off the disk. */
  ghost function Cut(s: State, a: Action): set<nat>
    requires Enabled(s, a)
  {
    if a.FlushChunk? && s.flusher.i in s.Get(s.flusher.taken).mask then
      var k, i := s.flusher.taken, s.flusher.i;
      set b | b in s.Get(k).bits && ChunkOf(b) == i && b / 8 >= i * CHUNK_BYTES + a.written && b !in s.disk
    else {}
  }

  /** Bits on disk that are overwritten with zeroes because a short read missed them. */
  ghost function Erased(s: State, a: Action): set<nat>
    requires Enabled(s, a)
  {
    if a.FlushChunk? && s.flusher.i in s.Get(s.flusher.taken).mask then
      var k, i := s.flusher.taken, s.flusher.i;
      set b | b in s.disk && b !in s.Get(k).bits && ChunkOf(b) == i
              && i * CHUNK_BYTES + a.read <= b / 8 < i * CHUNK_BYTES + a.written
    else {}
  }

  /**
    What a step loses: short reads and short writes count as success, and the whole chunk
    is cleared.  A bit is lost if it is cut off or erased, and not set again meanwhile.
   */
  ghost function Lost(s: State, a: Action): set<nat>
    requires Enabled(s, a)
  {
    if a.FlushChunk? then set b | b in Cut(s, a) + Erased(s, a) && b !in s.Get(!s.flusher.taken).bits else {}
  }

  lemma ChunkBounds(b: nat, i: nat)
    requires ChunkOf(b) == i
    ensures i * CHUNK_BYTES <= b / 8 < i * CHUNK_BYTES + CHUNK_BYTES
  {
    assert CHUNK_BYTES == 16384;
  }

  lemma CompleteLosesNothing(s: State, a: Action)
    requires Enabled(s, a) && (a.FlushChunk? ==> Complete(a))
    ensures Cut(s, a) == {} && Erased(s, a) == {} && Lost(s, a) == {}
  {
    if a.FlushChunk? {
      forall b: nat | ChunkOf(b) == s.flusher.i ensures b / 8 < s.flusher.i * CHUNK_BYTES + CHUNK_BYTES {
        ChunkBounds(b, s.flusher.i);
      }
    }
  }

  /** A step loses exactly these bits, and only the writer adds one. */
  lemma StepConserves(s: State, a: Action)
    requires Enabled(s, a) && Inv(s)
    ensures Union(Step(s, a)) == Union(s) - Lost(s, a) + if Recorded(s, a) then {a.bit} else {}
  {
    forall b: nat
      ensures b in Union(Step(s, a)) <==> b in Union(s) - Lost(s, a) + if Recorded(s, a) then {a.bit} else {}
    {
      if a.FlushChunk? {
        ChunkConserves(s, a, b);
      } else {
        OtherConserves(s, a, b);
      }
    }
  }

  lemma ChunkConserves(s: State, a: Action, b: nat)
    requires Enabled(s, a) && Inv(s) && a.FlushChunk?
    ensures b in Union(Step(s, a)) <==> b in Union(s) && b !in Lost(s, a)
  {
    var k, i := s.flusher.taken, s.flusher.i;
    ChunkDisk(s, a, b);
    ChunkBuffers(s, a, b);
  }

  /** What a flush of a chunk does to one bit on disk. */
  lemma ChunkDisk(s: State, a: Action, b: nat)
    requires Enabled(s, a) && a.FlushChunk?
    ensures var k, i := s.flusher.taken, s.flusher.i;
            b in Step(s, a).disk <==>
            if i in s.Get(k).mask && ChunkOf(b) == i && b / 8 < i * CHUNK_BYTES + a.written
            then b in s.Get(k).bits || (b in s.disk && b / 8 < i * CHUNK_BYTES + a.read)
            else b in s.disk
  {}

  /** And to the buffers. */
  lemma ChunkBuffers(s: State, a: Action, b: nat)
    requires Enabled(s, a) && a.FlushChunk?
    ensures var k, i := s.flusher.taken, s.flusher.i;
            && (b in Step(s, a).Get(k).bits <==> b in s.Get(k).bits && !(i in s.Get(k).mask && ChunkOf(b) == i))
            && Step(s, a).Get(!k) == s.Get(!k)
  {}

  lemma OtherConserves(s: State, a: Action, b: nat)
    requires Enabled(s, a) && Inv(s) && !a.FlushChunk?
    ensures b in Union(Step(s, a)) <==> b in Union(s) || (Recorded(s, a) && a.bit == b)
  {}

  // ------------------------------------------------------------------ over whole runs

  /** No step of the run loses the bit. */
  ghost predicate NoLoss(s: State, run: seq<Action>, b: nat)
    requires Runnable(s, run)
    decreases |run|
  {
    run == [] || (b !in Lost(s, run[0]) && NoLoss(Step(s, run[0]), run[1..], b))
  }

  /** Some step of the run records the bit, and none after it loses it. */
  ghost predicate RecordedAndKept(s: State, run: seq<Action>, b: nat)
    requires Runnable(s, run)
    decreases |run|
  {
    run != [] &&
    var s' := Step(s, run[0]);
    ((Recorded(s, run[0]) && run[0].bit == b && NoLoss(s', run[1..], b)) || RecordedAndKept(s', run[1..], b))
  }

  /**
    Over every interleaving of writers and flushes, failed and short ones included: a bit
    is on disk or in a buffer if and only if it was there at the start, or recorded
    later, and no short read or write lost it since.
   */
  lemma {:induction false} RunConserves(s: State, run: seq<Action>, b: nat)
    requires Runnable(s, run) && Inv(s)
    ensures Inv(Run(s, run))
    ensures b in Union(Run(s, run)) <==> (b in Union(s) && NoLoss(s, run, b)) || RecordedAndKept(s, run, b)
    decreases |run|
  {
    if run != [] {
      StepKeepsInv(s, run[0]);
      StepConserves(s, run[0]);
      RunConserves(Step(s, run[0]), run[1..], b);
    }
  }

  /** Runs without short reads and writes lose nothing: disk and buffers hold exactly the bits ever recorded. */
  lemma {:induction false} NothingLost(s: State, run: seq<Action>)
    requires Runnable(s, run) && Inv(s) && forall k :: 0 <= k < |run| && run[k].FlushChunk? ==> Complete(run[k])
    ensures Union(Run(s, run)) == Union(s) + AllRecorded(s, run)
    decreases |run|
  {
    if run != [] {
      StepKeepsInv(s, run[0]);
      StepConserves(s, run[0]);
      CompleteLosesNothing(s, run[0]);
      NothingLost(Step(s, run[0]), run[1..]);
    }
  }

  // ------------------------------------------------------ two flushes reach the disk

  /** Number of flushes in a row that succeeded, counted up to 2. */
  function Streak(n: nat, a: Action): nat {
    match a
    case FlushNothing => if n >= 1 then 2 else 1
    case FlushDone => if n >= 1 then 2 else 1
    case FlushWriteFails(_) => if n >= 2 then 2 else 0
    case FlushFails => if n >= 2 then 2 else 0
    case _ => n
  }

  ghost function StreakOf(n: nat, run: seq<Action>): nat
    decreases |run|
  {
    if run == [] then n else StreakOf(Streak(n, run[0]), run[1..])
  }

  /** No step of the run keeps the bit off the disk, or takes it from there. */
  ghost predicate NoCut(s: State, run: seq<Action>, b: nat)
    requires Runnable(s, run)
    decreases |run|
  {
    run == [] || (b !in Cut(s, run[0]) + Erased(s, run[0]) && NoCut(Step(s, run[0]), run[1..], b))
  }

  /** Where bit b is after n successful flushes in a row. */
  ghost predicate Reached(s: State, b: nat, n: nat) {
    if n == 0 then b in Union(s)
    else if n == 1 then
      if s.flusher.Outside? then b in s.disk + s.Get(s.cur).bits else b in s.disk + s.Get(s.flusher.taken).bits
    else b in s.disk
  }

  /** The disk loses nothing but what a short read erases. */
  lemma DiskGrows(s: State, a: Action)
    requires Enabled(s, a)
    ensures s.disk - Erased(s, a) <= Step(s, a).disk
  {}

  lemma ReachedStep(s: State, a: Action, b: nat, n: nat)
    requires Enabled(s, a) && Inv(s) && Reached(s, b, n) && n <= 2 && b !in Cut(s, a) + Erased(s, a)
    ensures Reached(Step(s, a), b, Streak(n, a))
  {
    DiskGrows(s, a);
    StepConserves(s, a);
  }

  lemma {:induction false} ReachedRun(s: State, run: seq<Action>, b: nat, n: nat)
    requires Runnable(s, run) && Inv(s) && Reached(s, b, n) && n <= 2 && NoCut(s, run, b)
    ensures Reached(Run(s, run), b, StreakOf(n, run))
    decreases |run|
  {
    if run != [] {
      ReachedStep(s, run[0], b, n);
      StepKeepsInv(s, run[0]);
      ReachedRun(Step(s, run[0]), run[1..], b, Streak(n, run[0]));
    }
  }

  /**
    Whatever the writers do meanwhile: once two flushes in a row have succeeded, every
    bit recorded before the first of them is on disk, if no short read or write cut it off.
   */
  lemma TwoFlushesReachDisk(s: State, run: seq<Action>, b: nat)
    requires Runnable(s, run) && Inv(s) && s.flusher.Outside?
    requires StreakOf(0, run) == 2 && b in Union(s) && NoCut(s, run, b)
    ensures b in Run(s, run).disk
  {
    ReachedRun(s, run, b, 0);
  }

  // -------------------------------------------------------- bits that are not set again

  /** No writer sets the bit during the run. */
  ghost predicate NotSet(run: seq<Action>, b: nat) {
    forall k :: 0 <= k < |run| && run[k].SetBit? ==> run[k].bit != b
  }

  /** Where such a bit is after n successful flushes in a row: in no buffer but the one to be flushed. */
  ghost predicate Alone(s: State, b: nat, n: nat) {
    if n == 0 then b in Union(s)
    else if n == 1 then
      var next := if s.flusher.Outside? then s.cur else s.flusher.taken;
      b in s.disk + s.Get(next).bits && b !in s.Get(!next).bits
    else b in s.disk
  }

  lemma AloneStep(s: State, a: Action, b: nat, n: nat)
    requires Enabled(s, a) && Inv(s) && Alone(s, b, n) && n <= 1 && b !in Lost(s, a) && (a.SetBit? ==> a.bit != b)
    ensures Alone(Step(s, a), b, Streak(n, a))
  {
    DiskGrows(s, a);
    StepConserves(s, a);
  }

  /** The second success in a row, if there is one, is the end of the run. */
  ghost predicate UpToTwo(n: nat, run: seq<Action>)
    decreases |run|
  {
    run == [] || (n <= 1 && UpToTwo(Streak(n, run[0]), run[1..]))
  }

  lemma {:induction false} AloneRun(s: State, run: seq<Action>, b: nat, n: nat)
    requires Runnable(s, run) && Inv(s) && Alone(s, b, n) && UpToTwo(n, run) && NoLoss(s, run, b) && NotSet(run, b)
    ensures Alone(Run(s, run), b, StreakOf(n, run))
    decreases |run|
  {
    if run != [] {
      AloneStep(s, run[0], b, n);
      StepKeepsInv(s, run[0]);
      AloneRun(Step(s, run[0]), run[1..], b, Streak(n, run[0]));
    }
  }

  lemma {:induction false} NotSetNotRecorded(s: State, run: seq<Action>, b: nat)
    requires Runnable(s, run) && NotSet(run, b)
    ensures !RecordedAndKept(s, run, b)
    decreases |run|
  {
    if run != [] {
      NotSetNotRecorded(Step(s, run[0]), run[1..], b);
    }
  }

  /**
    For a bit that is not set again, when two flushes in a row have just returned success:
    it is on disk if and only if no short read or write has lost it.
   */
  lemma TwoFlushesExactly(s: State, run: seq<Action>, b: nat)
    requires Runnable(s, run) && Inv(s) && s.flusher.Outside?
    requires StreakOf(0, run) == 2 && UpToTwo(0, run) && b in Union(s) && NotSet(run, b)
    ensures b in Run(s, run).disk <==> NoLoss(s, run, b)
  {
    RunConserves(s, run, b);
    NotSetNotRecorded(s, run, b);
    if NoLoss(s, run, b) {
      AloneRun(s, run, b, 0);
    }
  }

  // ------------------------------------------------------------------- one flush

  /** Nothing but writers and the flush at work. */
  ghost predicate Undisturbed(run: seq<Action>) {
    forall k :: 0 <= k < |run| ==> run[k].SetBit? || run[k].FlushChunk?
  }

  /**
    Is bit b on disk after a flush that goes on with chunk i?  `before` tells whether it was,
    `mine` whether the buffer holds it, and `masked` whether the buffer announces its chunk.
   */
  ghost predicate Stored(run: seq<Action>, i: nat, b: nat, before: bool, mine: bool, masked: bool)
    decreases |run|
  {
    if run == [] then before
    else
      match run[0]
      case FlushChunk(read, written) =>
        if ChunkOf(b) != i then Stored(run[1..], i + 1, b, before, mine, masked)
        else if masked && b / 8 < i * CHUNK_BYTES + written then mine || (before && b / 8 < i * CHUNK_BYTES + read)
        else before
      case _ => Stored(run[1..], i, b, before, mine, masked)
  }

  lemma {:induction false} FlushRun(s: State, run: seq<Action>, b: nat)
    requires Inv(s) && s.flusher.Flushing? && Runnable(s, run) && Undisturbed(run)
    ensures var t := Run(s, run); Inv(t) && t.flusher.Flushing? && t.flusher.taken == s.flusher.taken
    ensures var taken := s.Get(s.flusher.taken);
            b in Run(s, run).disk <==>
            if ChunkOf(b) < s.flusher.i then b in s.disk
            else Stored(run, s.flusher.i, b, b in s.disk, b in taken.bits, ChunkOf(b) in taken.mask)
    decreases |run|
  {
    if run != [] {
      StepKeepsInv(s, run[0]);
      FlushRun(Step(s, run[0]), run[1..], b);
    }
  }

  /**
    What one successful flush does, whatever the writers do meanwhile: it adds to the
    file what the buffer it took held at the swap, but for the bits cut off by short
    writes, takes away what short reads missed, and empties the buffer.
   */
  lemma FlushWritesWhatItTook(s: State, run: seq<Action>, b: nat)
    requires Inv(s) && Enabled(s, FlushSwap)
    requires Runnable(Step(s, FlushSwap), run) && Undisturbed(run)
    requires Enabled(Run(Step(s, FlushSwap), run), FlushDone)
    ensures var t, taken := Step(Run(Step(s, FlushSwap), run), FlushDone), s.Get(s.cur);
            && (b in t.disk <==> Stored(run, 0, b, b in s.disk, b in taken.bits, ChunkOf(b) in taken.mask))
            && t.Get(s.cur) == Buf({}, {}, t.Get(s.cur).present)
  {
    StepKeepsInv(s, FlushSwap);
    FlushRun(Step(s, FlushSwap), run, b);
    var t := Run(Step(s, FlushSwap), run);
    assert t.Get(s.cur).bits == {};
  }

  lemma CompleteStep(s: State, a: Action, b: nat)
    requires Inv(s) && s.flusher.Flushing? && Enabled(s, a) && (a.SetBit? || Complete(a))
    ensures var k, t := s.flusher.taken, Step(s, a); b in t.disk + t.Get(k).bits <==> b in s.disk + s.Get(k).bits
  {
    if ChunkOf(b) == s.flusher.i {
      ChunkBounds(b, s.flusher.i);
    }
  }

  lemma {:induction false} CompleteRun(s: State, run: seq<Action>, b: nat)
    requires Inv(s) && s.flusher.Flushing? && Runnable(s, run)
    requires forall k :: 0 <= k < |run| ==> run[k].SetBit? || Complete(run[k])
    ensures var k, t := s.flusher.taken, Run(s, run); b in t.disk + t.Get(k).bits <==> b in s.disk + s.Get(k).bits
    decreases |run|
  {
    if run != [] {
      StepKeepsInv(s, run[0]);
      CompleteStep(s, run[0], b);
      CompleteRun(Step(s, run[0]), run[1..], b);
    }
  }

  /** Without short reads and writes a flush adds exactly what the buffer it took held at the swap. */
  lemma CompleteFlush(s: State, run: seq<Action>, b: nat)
    requires Inv(s) && Enabled(s, FlushSwap) && Runnable(Step(s, FlushSwap), run)
    requires forall k :: 0 <= k < |run| ==> run[k].SetBit? || Complete(run[k])
    requires Enabled(Run(Step(s, FlushSwap), run), FlushDone)
    ensures b in Step(Run(Step(s, FlushSwap), run), FlushDone).disk <==> b in s.disk + s.Get(s.cur).bits
  {
    StepKeepsInv(s, FlushSwap);
    FlushWritesWhatItTook(s, run, b);
    CompleteRun(Step(s, FlushSwap), run, b);
  }

  /** The writer records a change of a tracked file. */
  function Track(slice: nat, fileId: nat, memory: bool): (a: Action)
    requires slice < MAX_SLICES
    ensures a.SetBit? && ChunkOf(a.bit) < MAX_BUFFER && a.memory == memory
  {
    BitInBitmap(slice, fileId, slice, fileId);
    SetBit(BitOf(slice, fileId), memory)
  }

  lemma TrackEnablesFlush(s: State, a: Action)
    requires Inv(s) && s.flusher.Outside? && a.SetBit? && ChunkOf(a.bit) < MAX_BUFFER && a.memory
    ensures var t := Step(s, a);
            Inv(t) && Enabled(t, FlushSwap) && t.disk == s.disk && t.cur == s.cur && t.Get(t.cur).bits == s.Get(s.cur).bits + {a.bit}
  {
    StepKeepsInv(s, a);
  }

  /**
    A change that was recorded is on disk after the next complete flush, and with it exactly the
    files of the same slice that share its bit; all other files are marked as they were.
   */
  lemma TrackedFileIsSaved(s: State, slice: nat, fileId: nat, run: seq<Action>, slice': nat, fileId': nat)
    requires Inv(s) && s.flusher.Outside? && slice < MAX_SLICES
    requires var t := Step(s, Track(slice, fileId, true));
             && Enabled(t, FlushSwap) && Runnable(Step(t, FlushSwap), run) && Enabled(Run(Step(t, FlushSwap), run), FlushDone)
    requires forall k :: 0 <= k < |run| ==> run[k].SetBit? || Complete(run[k])
    ensures var b := BitOf(slice', fileId');
            b in Step(Run(Step(Step(s, Track(slice, fileId, true)), FlushSwap), run), FlushDone).disk <==>
            b in s.disk + s.Get(s.cur).bits || (slice' == slice && fileId' % BITMAP_BYTES == fileId % BITMAP_BYTES)
  {
    hide Inv, Step, BitOf, ChunkOf;
    var a := Track(slice, fileId, true);
    TrackEnablesFlush(s, a);
    CompleteFlush(Step(s, a), run, BitOf(slice', fileId'));
    BitInBitmap(slice, fileId, slice', fileId');
  }

  /** A flush that failed can be repeated: nothing on disk changed, and no bit has left its buffer. */
  lemma FailedFlushCanBeRepeated(s: State, a: Action, b: nat)
    requires Inv(s) && Enabled(s, a) && (a.FlushFails? || a.FlushWriteFails?) && b in s.buf0.bits + s.buf1.bits
    ensures var t := Step(s, a);
            && Inv(t) && t.flusher.Outside? && t.disk == s.disk && Enabled(t, FlushSwap)
            && s.buf0.bits <= t.buf0.bits && s.buf1.bits <= t.buf1.bits
  {
    StepKeepsInv(s, a);
  }

  function Chunks(n: nat): seq<Action> {
    if n == 0 then [] else [FlushChunk(CHUNK_BYTES, CHUNK_BYTES)] + Chunks(n - 1)
  }

  /** Once the buffers are swapped, a flush without faults comes to its end. */
  lemma {:induction false} FlushCompletes(s: State, n: nat)
    requires Inv(s) && s.flusher.Flushing? && s.flusher.i + n == MAX_BUFFER
    ensures Runnable(s, Chunks(n)) && Enabled(Run(s, Chunks(n)), FlushDone)
    ensures forall k :: 0 <= k < |Chunks(n)| ==> Complete(Chunks(n)[k])
    decreases n
  {
    if n > 0 {
      var a := FlushChunk(CHUNK_BYTES, CHUNK_BYTES);
      StepKeepsInv(s, a);
      FlushCompletes(Step(s, a), n - 1);
      assert Chunks(n)[1..] == Chunks(n - 1);
    }
  }

  // -------------------------------------------------- attempts that return success

  /** The empty context that expt_alloc_context hands out. */
  function Initial(): State {
    State(Buf({}, {}, {}), Buf({}, {}, {}), false, {}, Outside)
  }

  /** Every attempt of the run returns 0: nothing to do, no memory, or a flush to its end. */
  ghost predicate AllReturnZero(run: seq<Action>) {
    forall k :: 0 <= k < |run| ==> !run[k].FlushFails? && !run[k].FlushWriteFails?
  }

  /** The attempts that went through. */
  ghost function Completed(run: seq<Action>): nat
    decreases |run|
  {
    if run == [] then 0 else (if run[0].FlushDone? then 1 else 0) + Completed(run[1..])
  }

  /** Where a bit is after n completed flushes, if it was in the buffer that the first one takes, or only in the other. */
  ghost predicate Located(s: State, b: nat, n: nat, first: bool) {
    if n == 0 then
      if s.flusher.Outside? then b !in s.disk && (b in s.Get(s.cur).bits <==> first) && (!first ==> b in s.Get(!s.cur).bits)
      else if first then b in s.disk || b in s.Get(s.flusher.taken).bits
      else b !in s.disk && b !in s.Get(s.flusher.taken).bits && b in s.Get(s.cur).bits
    else if n == 1 && !first then
      if s.flusher.Outside? then b !in s.disk && b in s.Get(s.cur).bits
      else b in s.disk || b in s.Get(s.flusher.taken).bits
    else b in s.disk
  }

  lemma LocatedStep(s: State, a: Action, b: nat, n: nat, first: bool)
    requires Enabled(s, a) && Inv(s) && Located(s, b, n, first) && b !in Cut(s, a) + Erased(s, a)
    requires !a.FlushFails? && !a.FlushWriteFails? && (a.SetBit? ==> a.bit != b)
    ensures Located(Step(s, a), b, if a.FlushDone? then n + 1 else n, first)
  {
    DiskGrows(s, a);
  }

  lemma {:induction false} LocatedRun(s: State, run: seq<Action>, b: nat, n: nat, first: bool)
    requires Runnable(s, run) && Inv(s) && Located(s, b, n, first) && NoCut(s, run, b)
    requires AllReturnZero(run) && NotSet(run, b)
    ensures Located(Run(s, run), b, n + Completed(run), first)
    decreases |run|
  {
    if run != [] {
      LocatedStep(s, run[0], b, n, first);
      StepKeepsInv(s, run[0]);
      LocatedRun(Step(s, run[0]), run[1..], b, if run[0].FlushDone? then n + 1 else n, first);
    }
  }

  /**
    Any number of attempts that all return 0: a bit that was only in memory gets to the
    disk if and only if two of them completed, or one did and the bit was in the buffer
    in use.  Attempts that give up for lack of memory return 0 and do not count.
   */
  lemma ReturningZeroIsNotEnough(s: State, run: seq<Action>, b: nat)
    requires Runnable(s, run) && Inv(s) && s.flusher.Outside? && Run(s, run).flusher.Outside?
    requires b in Union(s) && b !in s.disk && NotSet(run, b) && AllReturnZero(run) && NoCut(s, run, b)
    ensures b in Run(s, run).disk <==> Completed(run) >= 2 || (Completed(run) == 1 && b in s.Get(s.cur).bits)
  {
    LocatedRun(s, run, b, 0, b in s.Get(s.cur).bits);
  }

  /** The smallest such run: two attempts that return 0 and leave a recorded bit off the disk. */
  lemma GivingUpLooksLikeSuccess()
    ensures var s := Initial();
            var run := [SetBit(0, true), FlushNoMemory, FlushNoMemory];
            Runnable(s, run) && 0 in Union(Run(s, run)) && 0 !in Run(s, run).disk
  {
    var run := [SetBit(0, true), FlushNoMemory, FlushNoMemory];
    var s1 := Step(Initial(), run[0]);
    assert run[1..] == [FlushNoMemory, FlushNoMemory] && run[1..][1..] == [FlushNoMemory];
    assert Run(Initial(), run) == Run(s1, run[1..]) == Run(s1, run[1..][1..]) == s1;
  }

  /** Runs that lose a bit: a flush that writes less of the chunk counts as success and clears it. */
  lemma ShortWriteLoses(bit: nat, written: nat)
    requires ChunkOf(bit) == 0 && written <= bit / 8 && written < CHUNK_BYTES
    ensures var s, a := Step(Step(Initial(), SetBit(bit, true)), FlushSwap), FlushChunk(CHUNK_BYTES, written);
            && Enabled(s, a) && bit in Union(s) && Lost(s, a) == {bit} && bit !in Union(Step(s, a))
  {
    var s, a := Step(Step(Initial(), SetBit(bit, true)), FlushSwap), FlushChunk(CHUNK_BYTES, written);
    assert s == State(Buf({bit}, {0}, {0}), Buf({}, {}, {}), true, {}, Flushing(false, 0));
    assert bit in Cut(s, a) && Cut(s, a) <= {bit} && Erased(s, a) == {};
    StepConserves(s, a);
  }

  /** And a flush that reads less of it before it writes it overwrites what it missed, whatever bit of the chunk it is for. */
  lemma ShortReadLoses(s: State, bit: nat, other: nat, read: nat)
    requires Inv(s) && s.flusher.Outside? && bit in s.disk && bit !in s.buf0.bits && bit !in s.buf1.bits
    requires ChunkOf(bit) == ChunkOf(other) == 0 && bit != other && 0 < read <= bit / 8
    ensures var t, a := Step(Step(s, SetBit(other, true)), FlushSwap), FlushChunk(read, CHUNK_BYTES);
            && Enabled(t, a) && bit in Lost(t, a) && bit !in Union(Step(t, a))
  {
    ChunkBounds(bit, 0);
    var u := Step(s, SetBit(other, true));
    StepKeepsInv(s, SetBit(other, true));
    assert 0 in u.Get(s.cur).mask && bit !in u.Get(s.cur).bits && bit !in u.Get(!s.cur).bits && u.cur == s.cur;
    var t, a := Step(u, FlushSwap), FlushChunk(read, CHUNK_BYTES);
    StepKeepsInv(u, FlushSwap);
    assert t.flusher == Flushing(s.cur, 0) && t.Get(s.cur) == u.Get(s.cur) && t.Get(!s.cur) == u.Get(!s.cur);
    assert bit in Erased(t, a);
    StepConserves(t, a);
  }
}
