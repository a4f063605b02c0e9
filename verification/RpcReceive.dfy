/**
  The receiver of the RPC stream sockets: a state machine that is called when
  the socket is readable and reassembles record-marked messages into buffers.
 */
module RpcReceive {
  import opened Bytes
  import opened RecordMarking

  // ------------------------------------------------------------------- the socket

  datatype Status = Complete | Partial | WouldBlock | Disconnected

  /** What one recv() system call can do. */
  datatype Outcome = EndOfFile | Bytes(n: nat) | Again | Interrupted | Failed

  /**
    How often reading gave nothing: `failures` reads ended the connection and `dries` would
    have blocked; `lost` and `stalls` are those of them that came with bytes still to be read.
   */
  datatype Tally = Tally(failures: nat, lost: nat, dries: nat, stalls: nat)

  ghost function Counted(t: Tally, status: Status, more: bool): Tally {
    match status
    case Disconnected => t.(failures := t.failures + 1, lost := t.lost + if more then 1 else 0)
    case WouldBlock => t.(dries := t.dries + 1, stalls := t.stalls + if more then 1 else 0)
    case _ => t
  }

  /** What a read reports for the system calls it made: three interruptions in a row count as an error. */
  ghost predicate Reports(calls: seq<Outcome>, len: nat, status: Status) {
    && 1 <= |calls| <= 3
    && (forall i :: 0 <= i < |calls| - 1 ==> calls[i] == Interrupted)
    && match calls[|calls| - 1]
       case EndOfFile => status == Disconnected
       case Bytes(n) => status == if n == len then Complete else Partial
       case Again => status == WouldBlock
       case Interrupted => |calls| == 3 && status == Disconnected
       case Failed => status == Disconnected
  }

  /** The peer's byte stream; `taken` bytes of it have been read so far. */
  class Socket {
    const stream: seq<byte>
    var taken: nat
    ghost var calls: seq<Outcome>
    ghost var tally: Tally

    ghost predicate Valid()
      reads this
    {
      && taken <= |stream|
      && tally.lost <= tally.failures && tally.stalls <= tally.dries
      && (tally.lost < tally.failures || tally.stalls < tally.dries ==> taken == |stream|)
    }

    constructor (s: seq<byte>)
      ensures Valid() && stream == s && taken == 0 && calls == [] && tally == Tally(0, 0, 0, 0)
    {
      stream, taken, calls, tally := s, 0, [], Tally(0, 0, 0, 0);
    }

    /** recv(): any outcome that the system allows, with at most `len` bytes of what is left. */
    method SystemRecv(len: nat) returns (o: Outcome, data: seq<byte>)
      requires Valid()
      modifies this`taken, this`calls
      ensures Valid() && old(taken) <= taken && calls == old(calls) + [o]
      ensures data == stream[old(taken)..taken]
      ensures o.Bytes? ==> 0 < o.n == |data| <= len
      ensures !o.Bytes? ==> data == []
      ensures len == 0 ==> o == EndOfFile
    {
      data := [];
      var end: bool := *;
      if len == 0 || end {
        o := EndOfFile;
      } else if * {
        o := Again;
      } else if * {
        o := Interrupted;
      } else if * {
        o := Failed;
      } else {
        var n: nat := *;
        if 0 < n <= len && n <= |stream| - taken {
          o, data := Bytes(n), stream[taken..taken + n];
          taken := taken + n;
        } else {
          o := Again;
        }
      }
      calls := calls + [o];
    }

    /** Read up to `len` bytes; asking for none looks like the end of the stream. */
    method Recv(len: nat) returns (status: Status, data: seq<byte>)
      requires Valid()
      modifies this
      ensures Valid() && old(taken) <= taken
      ensures old(calls) <= calls && Reports(calls[|old(calls)|..], len, status)
      ensures tally == if len == 0 then old(tally) else Counted(old(tally), status, taken < |stream|)
      ensures data == stream[old(taken)..taken]
      ensures status == Complete ==> 0 < |data| == len
      ensures status == Partial ==> 0 < |data| < len
      ensures status == WouldBlock || status == Disconnected ==> data == []
      ensures len == 0 ==> status == Disconnected
    {
      var eintrCount := 0;
      while true
        invariant Valid() && taken == old(taken) && tally == old(tally) && eintrCount <= 2
        invariant |calls| == |old(calls)| + eintrCount && old(calls) <= calls
        invariant forall i :: |old(calls)| <= i < |calls| ==> calls[i] == Interrupted
        decreases 3 - eintrCount
      {
        var o;
        o, data := SystemRecv(len);
        match o {
          case EndOfFile => status := Disconnected;
          case Bytes(n) => status := if n == len then Complete else Partial;
          case Again => status := WouldBlock;
          case Interrupted =>
            eintrCount := eintrCount + 1;
            if eintrCount < 3 {
              continue;
            }
            status := Disconnected;
          case Failed => status := Disconnected;
        }
        tally := if len == 0 then tally else Counted(tally, status, taken < |stream|);
        return;
      }
    }
  }

  // ------------------------------------------------------------- the receiver's state

  datatype State = Idle | WaitHeader | AllocBuffer | ReadPayload | Dead

  /** A buffer handed out by the application: its number, its size and the bytes written to it. */
  datatype Buffer = NoBuffer | Buffer(id: nat, capacity: nat, contents: seq<byte>)

  /** com_recv_template_t and its RPC part. */
  datatype Context = Context(
    state: State,
    header: seq<byte>,
    nbread: nat,
    nb2read: nat,
    buffer: Buffer,
    lastRecord: bool,
    recordLen: nat,
    inTotLen: nat,
    inWrOffset: nat)

  /** What the application sees: the messages and what became of its buffers. */
  datatype Application = Application(delivered: seq<seq<byte>>, deliveredIds: seq<nat>, freedIds: seq<nat>, nextId: nat)

  ghost function Issued(n: nat): multiset<nat> {
    if n == 0 then multiset{} else Issued(n - 1) + multiset{n - 1}
  }

  ghost function Held(b: Buffer): multiset<nat> {
    if b.Buffer? then multiset{b.id} else multiset{}
  }

  /** Every buffer that was ever allocated is delivered, freed or current: exactly one of these, once. */
  ghost predicate Ledger(app: Application, b: Buffer) {
    multiset(app.deliveredIds) + multiset(app.freedIds) + Held(b) == Issued(app.nextId)
  }

  /** How the counters describe the buffer in every state. */
  ghost predicate Shape(max: nat, c: Context) {
    && |c.header| == HEADER_SIZE <= max < LAST_FLAG
    && (c.buffer.Buffer? ==> HEADER_SIZE <= |c.buffer.contents| && HEADER_SIZE + c.inTotLen <= c.buffer.capacity <= max)
    && match c.state
       case Idle => c.buffer.NoBuffer?
       case WaitHeader =>
         && c.nbread < c.nb2read == HEADER_SIZE && !c.lastRecord
         && (if c.buffer.NoBuffer? then c.inTotLen == c.inWrOffset == 0
             else |c.buffer.contents| == c.inWrOffset == HEADER_SIZE + c.inTotLen && c.buffer.capacity == max)
       case AllocBuffer =>
         && c.buffer.NoBuffer? && c.inTotLen == c.inWrOffset == 0
         && (c.lastRecord ==> DecodeWord(c.header) >= LAST_FLAG)
       case ReadPayload =>
         && c.buffer.Buffer? && c.nbread <= c.nb2read
         && |c.buffer.contents| == c.inWrOffset + c.nbread
         && c.inWrOffset + c.nb2read == HEADER_SIZE + c.inTotLen
         && (!c.lastRecord ==> c.buffer.capacity == max)
       case Dead => c.buffer.NoBuffer?
  }

  /** The payload bytes of the message in progress. */
  ghost function Message(b: Buffer): seq<byte> {
    if b.NoBuffer? || |b.contents| < HEADER_SIZE then [] else b.contents[HEADER_SIZE..]
  }

  /** The decoder state that a context stands for. */
  ghost function Abstract(max: nat, c: Context, done: seq<seq<byte>>): Decoder
    requires Shape(max, c)
  {
    match c.state
    case Idle => Decoder(done, [], false, Header([]))
    case WaitHeader => Decoder(done, Message(c.buffer), c.buffer.Buffer?, Header(c.header[..c.nbread]))
    case AllocBuffer => AfterHeader(max, Decoder(done, [], false, Header([])), c.header)
    case ReadPayload =>
      if c.nbread == c.nb2read then Decoder(done, [], false, Closed)
      else Decoder(done, Message(c.buffer), true, Data(c.nb2read - c.nbread, c.lastRecord))
    case Dead => Decoder(done, [], false, Closed)
  }

  /**
    Exactly the complete messages have been delivered, the context stands for the
    rest of what the reference decoder has seen, and every buffer is accounted for.
   */
  ghost predicate Agrees(max: nat, c: Context, app: Application, ref: Decoder) {
    && Shape(max, c) && Ledger(app, c.buffer)
    && app.delivered == Deliveries(ref.done)
    && (c.state != Dead ==> Abstract(max, c, ref.done) == ref)
  }

  // ------------------------------------------------------- the steps, as functions

  /** RECV_IDLE: get ready for a header. */
  function Rearmed(c: Context): Context {
    c.(state := WaitHeader, nbread := 0, nb2read := HEADER_SIZE, buffer := NoBuffer,
       lastRecord := false, recordLen := 0, inTotLen := 0, inWrOffset := 0)
  }

  /** Bytes of a header stored behind those already there. */
  function HeaderBytes(c: Context, data: seq<byte>): Context
    requires c.nbread + |data| <= |c.header|
  {
    c.(header := c.header[..c.nbread] + data + c.header[c.nbread + |data|..])
  }

  /** Length and flag of a complete header. */
  function Parsed(c: Context): Context
    requires |c.header| == HEADER_SIZE
  {
    var w := DecodeWord(c.header);
    c.(lastRecord := c.lastRecord || w >= LAST_FLAG, recordLen := w % LAST_FLAG)
  }

  /** Bytes of the payload stored at in_wr_offset + nbread. */
  function PayloadBytes(c: Context, data: seq<byte>): Context
    requires c.buffer.Buffer? && c.inWrOffset + c.nbread <= |c.buffer.contents|
  {
    c.(buffer := c.buffer.(contents := c.buffer.contents[..c.inWrOffset + c.nbread] + data), nbread := c.nbread + |data|)
  }

  function Freed(app: Application, b: Buffer): Application {
    if b.NoBuffer? then app else app.(freedIds := app.freedIds + [b.id])
  }

  function Killed(c: Context): Context {
    c.(buffer := NoBuffer, state := Dead)
  }

  lemma RearmedAgrees(max: nat, c: Context, app: Application, ref: Decoder)
    requires Agrees(max, c, app, ref) && c.state == Idle
    ensures Agrees(max, Rearmed(c), app, ref)
  {
    assert c.header[..0] == [];
  }

  /** Whatever arrived before a disconnection, nothing that was delivered changes and no buffer is lost. */
  lemma KilledAgrees(max: nat, c: Context, app: Application, ref: Decoder)
    requires Ledger(app, c.buffer) && |c.header| == HEADER_SIZE <= max < LAST_FLAG
    requires app.delivered == Deliveries(ref.done)
    ensures Agrees(max, Killed(c), Freed(app, c.buffer), ref)
  {
    if c.buffer.Buffer? {
      FreedLedger(app, c.buffer);
    }
  }

  lemma FreedLedger(app: Application, b: Buffer)
    requires Ledger(app, b) && b.Buffer?
    ensures Ledger(Freed(app, b), NoBuffer)
  {
    assert multiset(app.freedIds + [b.id]) == multiset(app.freedIds) + multiset{b.id};
  }

  lemma HeaderPieceAgrees(max: nat, c: Context, app: Application, ref: Decoder, data: seq<byte>)
    requires Agrees(max, c, app, ref) && c.state == WaitHeader && 0 < |data| < c.nb2read - c.nbread
    ensures Agrees(max, HeaderBytes(c, data).(nbread := c.nbread + |data|), app, FeedAll(max, ref, data))
  {
    FeedHeader(max, ref, data);
    var c' := HeaderBytes(c, data);
    assert c'.header[..c.nbread + |data|] == c.header[..c.nbread] + data;
  }

  lemma FirstHeaderAgrees(max: nat, c: Context, app: Application, ref: Decoder, data: seq<byte>)
    requires Agrees(max, c, app, ref) && c.state == WaitHeader && |data| == c.nb2read - c.nbread && c.buffer.NoBuffer?
    ensures Agrees(max, HeaderBytes(c, data).(state := AllocBuffer), app, FeedAll(max, ref, data))
  {
    FeedHeader(max, ref, data);
    var c' := HeaderBytes(c, data);
    assert c'.header == c.header[..c.nbread] + data;
  }

  /** A further fragment, accepted. */
  function Continued(c: Context): Context {
    c.(nbread := 0, nb2read := c.recordLen, state := ReadPayload)
  }

  lemma LengthIsRemainder(w: int)
    requires 0 <= w < WORD
    ensures w % LAST_FLAG == Length(w) < LAST_FLAG
  {}

  /** Total of a message once the header of a further fragment has been parsed; it does not wrap around. */
  function WithTotal(c: Context): Context {
    c.(inTotLen := (c.inTotLen + c.recordLen) % WORD)
  }

  lemma TotalDoesNotWrap(max: nat, c: Context)
    requires Shape(max, c) && c.state == WaitHeader && c.buffer.Buffer?
    ensures var w, c2 := DecodeWord(c.header), WithTotal(Parsed(c));
            && c2.inTotLen == c.inTotLen + Length(w)
            && ((c2.inTotLen + HEADER_SIZE) % WORD > max <==> Refused(max, true, c.inTotLen, w))
  {
    LengthIsRemainder(DecodeWord(c.header));
  }

  lemma ContinuedAgrees(max: nat, c: Context, app: Application, ref: Decoder)
    requires Agrees(max, c, app, ref) && c.state == WaitHeader && c.buffer.Buffer?
    ensures var c2, ref' := WithTotal(Parsed(c)), AfterHeader(max, ref, c.header);
            && app.delivered == Deliveries(ref'.done)
            && ((c2.inTotLen + HEADER_SIZE) % WORD > max ==> ref'.stage == Closed)
            && ((c2.inTotLen + HEADER_SIZE) % WORD <= max ==> Agrees(max, Continued(c2), app, ref'))
  {
    hide Deliveries, DecodeWord, Ledger;
    TotalDoesNotWrap(max, c);
    LengthIsRemainder(DecodeWord(c.header));
  }

  lemma NextHeaderAgrees(max: nat, c: Context, app: Application, ref: Decoder, data: seq<byte>)
    requires Agrees(max, c, app, ref) && c.state == WaitHeader && |data| == c.nb2read - c.nbread && c.buffer.Buffer?
    ensures var c2 := WithTotal(Parsed(HeaderBytes(c, data)));
            if (c2.inTotLen + HEADER_SIZE) % WORD > max
            then app.delivered == Deliveries(FeedAll(max, ref, data).done) && FeedAll(max, ref, data).stage == Closed
            else Agrees(max, Continued(c2), app, FeedAll(max, ref, data))
  {
    hide FeedAll, Deliveries, DecodeWord, Ledger, AfterHeader;
    FeedHeader(max, ref, data);
    var c1 := HeaderBytes(c, data);
    assert c1.header == c.header[..c.nbread] + data;
    assert c1.header[..c.nbread] == c.header[..c.nbread];
    ContinuedAgrees(max, c1, app, ref);
  }

  /** The buffer the source asks for once the first header is known. */
  function FullLength(max: nat, c: Context): nat {
    if !c.lastRecord then max else c.recordLen + HEADER_SIZE
  }

  function Allocated(max: nat, c: Context, id: nat): Context {
    c.(buffer := Buffer(id, FullLength(max, c), c.header), inTotLen := c.inTotLen + c.recordLen,
       nbread := HEADER_SIZE, nb2read := HEADER_SIZE + c.recordLen, state := ReadPayload)
  }

  lemma AllocatedLedger(app: Application, b: Buffer)
    requires Ledger(app, NoBuffer) && b.Buffer? && b.id == app.nextId
    ensures Ledger(app.(nextId := app.nextId + 1), b)
  {}

  lemma AllocatedAgrees(max: nat, c: Context, app: Application, ref: Decoder)
    requires Agrees(max, c, app, ref) && c.state == AllocBuffer
    requires FullLength(max, Parsed(c)) <= max
    ensures Agrees(max, Parsed(c), app, ref)
    ensures !OversizedFirst(max, DecodeWord(c.header)) ==>
              Agrees(max, Allocated(max, Parsed(c), app.nextId), app.(nextId := app.nextId + 1), ref)
    ensures Ledger(app.(nextId := app.nextId + 1), Allocated(max, Parsed(c), app.nextId).buffer)
    ensures var c' := Allocated(max, Parsed(c), app.nextId);
            c'.inWrOffset + c'.nb2read <= c'.buffer.capacity <==> !OversizedFirst(max, DecodeWord(c.header))
  {
    hide FeedAll, Deliveries, DecodeWord, EncodeWord, Ledger;
    LengthIsRemainder(DecodeWord(c.header));
    AllocatedLedger(app, Allocated(max, Parsed(c), app.nextId).buffer);
    assert c.header[HEADER_SIZE..] == [];
  }

  /** A first fragment of 20 bytes that is not the last one gets a buffer of the maximum, 16 bytes. */
  lemma UncheckedFirstFragment(c: Context)
    requires c.header == [0, 0, 0, 20] && c.inTotLen == c.inWrOffset == 0 && !c.lastRecord
    ensures FullLength(16, Parsed(c)) <= 16 && OversizedFirst(16, DecodeWord(c.header))
    ensures Allocated(16, Parsed(c), 0).buffer.capacity == 16 < Allocated(16, Parsed(c), 0).nb2read == 24
  {
    assert DecodeWord(c.header) == 20;
  }

  /** A single fragment is refused for its length exactly when the reference closes the connection for it. */
  lemma RefusedAgrees(max: nat, c: Context, app: Application, ref: Decoder)
    requires Agrees(max, c, app, ref) && c.state == AllocBuffer
    ensures FullLength(max, Parsed(c)) > max <==> Refused(max, false, 0, DecodeWord(c.header))
    ensures FullLength(max, Parsed(c)) > max ==> ref.stage == Closed
  {
    hide FeedAll, Deliveries, DecodeWord, Ledger;
    LengthIsRemainder(DecodeWord(c.header));
  }

  /** Nothing is left to read of an empty fragment: the reference has closed the connection. */
  lemma EmptyFragmentAgrees(max: nat, c: Context, app: Application, ref: Decoder)
    requires Agrees(max, c, app, ref) && c.state == ReadPayload && c.nbread == c.nb2read
    ensures ref.stage == Closed
  {}

  lemma PayloadFacts(max: nat, c: Context)
    requires Shape(max, c) && c.state == ReadPayload
    ensures c.buffer.Buffer? && c.nbread <= c.nb2read && c.inWrOffset + c.nbread == |c.buffer.contents| && |c.header| == HEADER_SIZE
  {}

  /** What the arrival of payload bytes does to the buffer, and that the counters still describe it. */
  lemma PayloadGrows(max: nat, c: Context, data: seq<byte>)
    requires Shape(max, c) && c.state == ReadPayload && |data| <= c.nb2read - c.nbread
    ensures var c' := PayloadBytes(c, data);
            && Shape(max, c') && c'.buffer.Buffer? && c'.buffer.id == c.buffer.id && Message(c'.buffer) == Message(c.buffer) + data
            && (|data| == c.nb2read - c.nbread && !c.lastRecord ==> Shape(max, Advanced(c')))
  {
    hide DecodeWord;
    var c' := PayloadBytes(c, data);
    assert c'.buffer.contents == c.buffer.contents + data;
    assert c'.buffer.contents[HEADER_SIZE..] == c.buffer.contents[HEADER_SIZE..] + data;
  }

  lemma PayloadPieceAgrees(max: nat, c: Context, app: Application, ref: Decoder, data: seq<byte>)
    requires Agrees(max, c, app, ref) && c.state == ReadPayload && 0 < |data| < c.nb2read - c.nbread
    ensures Agrees(max, PayloadBytes(c, data), app, FeedAll(max, ref, data))
  {
    hide FeedAll, Deliveries, Ledger, Shape, Message, Abstract;
    PayloadFacts(max, c);
    PayloadGrows(max, c, data);
    var c' := PayloadBytes(c, data);
    assert c'.state == ReadPayload && c'.nb2read - c'.nbread == c.nb2read - c.nbread - |data| && c'.lastRecord == c.lastRecord;
    PieceAgrees(max, c, c', app, ref, data);
  }

  /** The decoder has seen the same bytes. */
  lemma PieceAgrees(max: nat, c: Context, c': Context, app: Application, ref: Decoder, data: seq<byte>)
    requires Agrees(max, c, app, ref) && Shape(max, c') && c.state == c'.state == ReadPayload && c.buffer.Buffer? && c'.buffer.Buffer?
    requires c.nbread < c.nb2read && 0 < |data| && 0 < c'.nb2read - c'.nbread == c.nb2read - c.nbread - |data|
    requires c'.lastRecord == c.lastRecord && c'.buffer.id == c.buffer.id && Message(c'.buffer) == Message(c.buffer) + data
    ensures Agrees(max, c', app, FeedAll(max, ref, data))
  {
    hide FeedAll, Deliveries, Ledger, Shape, Message, Abstract;
    AbstractPayload(max, c, ref.done);
    AbstractPayload(max, c', ref.done);
    FeedData(max, ref, data);
    SameLedger(app, c.buffer, c'.buffer);
  }

  lemma AbstractPayload(max: nat, c: Context, done: seq<seq<byte>>)
    requires Shape(max, c) && c.state == ReadPayload && c.nbread < c.nb2read
    ensures Abstract(max, c, done) == Decoder(done, Message(c.buffer), true, Data(c.nb2read - c.nbread, c.lastRecord))
  {}

  lemma AbstractNextHeader(max: nat, c: Context, done: seq<seq<byte>>)
    requires Shape(max, c) && c.state == WaitHeader && c.nbread == 0
    ensures Abstract(max, c, done) == Decoder(done, Message(c.buffer), c.buffer.Buffer?, Header([]))
  {
    assert c.header[..0] == [];
  }

  lemma SameLedger(app: Application, b: Buffer, b': Buffer)
    requires Ledger(app, b) && b.Buffer? && b'.Buffer? && b.id == b'.id
    ensures Ledger(app, b')
  {}

  /** A fragment that is not the last one is complete. */
  function Advanced(c: Context): Context {
    c.(inWrOffset := c.inWrOffset + c.nbread, nbread := 0, nb2read := HEADER_SIZE, state := WaitHeader)
  }

  lemma FragmentDoneAgrees(max: nat, c: Context, app: Application, ref: Decoder, data: seq<byte>)
    requires Agrees(max, c, app, ref) && c.state == ReadPayload && 0 < |data| == c.nb2read - c.nbread && !c.lastRecord
    ensures Agrees(max, Advanced(PayloadBytes(c, data)), app, FeedAll(max, ref, data))
  {
    hide FeedAll, Deliveries, Ledger, Shape, Message, Abstract;
    PayloadFacts(max, c);
    PayloadGrows(max, c, data);
    var c' := PayloadBytes(c, data);
    AbstractPayload(max, c, ref.done);
    AbstractNextHeader(max, Advanced(c'), ref.done);
    FeedData(max, ref, data);
    SameLedger(app, c.buffer, c'.buffer);
  }

  /** The buffer as it is handed over: the total length replaces the first header. */
  function Finished(c: Context): seq<byte>
    requires c.buffer.Buffer? && |c.buffer.contents| >= HEADER_SIZE + c.inTotLen
  {
    EncodeWord(c.inTotLen % LAST_FLAG + LAST_FLAG) + c.buffer.contents[HEADER_SIZE..HEADER_SIZE + c.inTotLen]
  }

  lemma MessageDoneAgrees(max: nat, c: Context, app: Application, ref: Decoder, data: seq<byte>)
    requires Agrees(max, c, app, ref) && c.state == ReadPayload && 0 < |data| == c.nb2read - c.nbread && c.lastRecord
    ensures var c' := PayloadBytes(c, data);
            && |c'.buffer.contents| == HEADER_SIZE + c'.inTotLen
            && Agrees(max, c'.(buffer := NoBuffer, state := Idle),
                      app.(delivered := app.delivered + [Finished(c')], deliveredIds := app.deliveredIds + [c.buffer.id]),
                      FeedAll(max, ref, data))
  {
    hide FeedAll, Deliveries, Ledger, Message, AfterHeader, DecodeWord, Delivery, Finished;
    PayloadFacts(max, c);
    PayloadGrows(max, c, data);
    FeedData(max, ref, data);
    var c' := PayloadBytes(c, data);
    FinishedIsDelivery(c');
    DeliveriesSnoc(ref.done, Message(c'.buffer));
    DeliveredLedger(app, c.buffer, app.delivered + [Finished(c')]);
  }

  lemma FinishedIsDelivery(c: Context)
    requires c.buffer.Buffer? && |c.buffer.contents| == HEADER_SIZE + c.inTotLen
    ensures Finished(c) == Delivery(Message(c.buffer))
  {}

  lemma DeliveredLedger(app: Application, b: Buffer, delivered: seq<seq<byte>>)
    requires Ledger(app, b) && b.Buffer?
    ensures Ledger(app.(delivered := delivered, deliveredIds := app.deliveredIds + [b.id]), NoBuffer)
  {
    assert multiset(app.deliveredIds + [b.id]) == multiset(app.deliveredIds) + multiset{b.id};
  }

  lemma DeliveriesSnoc(payloads: seq<seq<byte>>, p: seq<byte>)
    ensures Deliveries(payloads + [p]) == Deliveries(payloads) + [Delivery(p)]
  {}

  // ------------------------------------------------------------------ the receiver

  /** No message of the stream starts with an unfinished fragment that fits no buffer. */
  ghost predicate FirstFragmentsFit(max: nat, stream: seq<byte>) {
    forall n :: 0 <= n <= |stream| ==> FeedAll(max, START, stream[..n]).stage != Overrun
  }

  function Rank(s: State): nat {
    match s
    case Idle => 3
    case AllocBuffer => 2
    case WaitHeader => 1
    case ReadPayload => 1
    case Dead => 0
  }

  /** The first fragment is oversized exactly when the reference has met the unchecked case. */
  lemma AllocIsChecked(max: nat, c: Context, app: Application, ref: Decoder)
    requires Agrees(max, c, app, ref) && c.state == AllocBuffer
    ensures |c.header| == HEADER_SIZE && (ref.stage == Overrun <==> OversizedFirst(max, DecodeWord(c.header)))
    ensures app.delivered == Deliveries(ref.done)
  {}

  /** A step that reads ends the callback for one of three reasons: dry, a failed read, or a message that must be refused. */
  ghost predicate WhyStopped(t: Tally, before: Tally, s: State, stage: Stage) {
    || (s != Dead && t.dries > before.dries && t.failures == before.failures)
    || (s == Dead && t.failures > before.failures && t.dries == before.dries)
    || (s == Dead && stage == Closed && t == before)
  }

  /** More reads have come back empty. */
  ghost predicate Slower(t: Tally, u: Tally) {
    t.failures <= u.failures && t.lost <= u.lost && t.dries <= u.dries && t.stalls <= u.stalls
  }

  class Receiver {
    const maxReceive: nat
    const creditConf: nat
    const socket: Socket
    var recv: Context
    var app: Application
    ghost var refusals: nat

    /** What the reference makes of the bytes taken from the socket so far. */
    ghost function Reference(): Decoder
      requires socket.Valid()
      reads socket
    {
      FeedAll(maxReceive, START, socket.stream[..socket.taken])
    }

    ghost predicate Valid()
      reads this, socket
    {
      socket.Valid() && Agrees(maxReceive, recv, app, Reference())
    }

    constructor (s: Socket, max: nat, credit: nat)
      requires s.Valid() && s.taken == 0 && HEADER_SIZE <= max < LAST_FLAG
      ensures Valid() && socket == s && maxReceive == max && creditConf == credit
      ensures app == Application([], [], [], 0) && recv.state == Idle && refusals == 0
    {
      maxReceive, creditConf, socket := max, credit, s;
      recv := Context(Idle, [0, 0, 0, 0], 0, 0, NoBuffer, false, 0, 0, 0);
      app, refusals := Application([], [], [], 0), 0;
    }

    /** The reference decoder after `data` more bytes. */
    lemma ReferenceAdvances(from: nat, before: Decoder, data: seq<byte>)
      requires socket.Valid() && from <= socket.taken && data == socket.stream[from..socket.taken]
      requires before == FeedAll(maxReceive, START, socket.stream[..from])
      ensures Reference() == FeedAll(maxReceive, before, data)
    {
      assert socket.stream[..socket.taken] == socket.stream[..from] + data;
      FeedAllAppend(maxReceive, START, socket.stream[..from], data);
    }

    /** The receiver gives up on its message: free the current buffer and forget it. */
    method FreeCurrent()
      requires recv.buffer.Buffer? && Ledger(app, recv.buffer)
      modifies this`recv, this`app
      ensures recv == old(recv).(buffer := NoBuffer) && app == Freed(old(app), old(recv.buffer))
      ensures Ledger(app, recv.buffer)
    {
      hide Issued;
      FreedLedger(app, recv.buffer);
      var id := recv.buffer.id;
      recv := recv.(buffer := NoBuffer);
      app := app.(freedIds := app.freedIds + [id]);
    }

    /**
      The receiver's part of the disconnection procedure: free the current buffer, if there
      still is one.  After FreeCurrent there is none, so no buffer is freed twice.
     */
    method Disconnect()
      requires socket.Valid() && |recv.header| == HEADER_SIZE <= maxReceive < LAST_FLAG
      requires Ledger(app, recv.buffer) && app.delivered == Deliveries(Reference().done)
      modifies this`recv, this`app
      ensures Valid() && recv.state == Dead && app.delivered == old(app.delivered) && recv.header == old(recv.header)
      ensures app == Freed(old(app), old(recv.buffer))
    {
      hide FeedAll, Deliveries, Abstract, Issued;
      KilledAgrees(maxReceive, recv, app, Reference());
      if recv.buffer.Buffer? {
        app := app.(freedIds := app.freedIds + [recv.buffer.id]);
      }
      recv := recv.(buffer := NoBuffer, state := Dead);
    }

    /** RECV_WAIT_HDR; stop when the socket is dry, the read failed or the total is too long. */
    method StepHeader() returns (stop: bool)
      requires Valid() && recv.state == WaitHeader
      modifies this`recv, this`app, socket
      ensures Valid() && old(socket.taken) <= socket.taken && app.delivered == old(app.delivered)
      ensures !stop ==> old(socket.taken) < socket.taken && socket.tally == old(socket.tally) && recv.state != Dead
      ensures stop ==> WhyStopped(socket.tally, old(socket.tally), recv.state, Reference().stage)
      ensures Slower(old(socket.tally), socket.tally)
    {
      hide FeedAll, Deliveries, Abstract, Ledger, DecodeWord;
      ghost var before := Reference();
      var status, data := socket.Recv(recv.nb2read - recv.nbread);
      ReferenceAdvances(old(socket.taken), before, data);
      stop := false;
      match status {
        case Complete =>
          if recv.buffer.NoBuffer? {
            FirstHeaderAgrees(maxReceive, recv, app, before, data);
            recv := HeaderBytes(recv, data).(state := AllocBuffer);
          } else {
            NextHeaderAgrees(maxReceive, recv, app, before, data);
            recv := WithTotal(Parsed(HeaderBytes(recv, data)));
            if (recv.inTotLen + HEADER_SIZE) % WORD > maxReceive {
              FreeCurrent();
              Disconnect();
              stop := true;
            } else {
              recv := Continued(recv);
            }
          }
        case Partial =>
          HeaderPieceAgrees(maxReceive, recv, app, before, data);
          recv := HeaderBytes(recv, data).(nbread := recv.nbread + |data|);
        case WouldBlock =>
          stop := true;
        case Disconnected =>
          Disconnect();
          stop := true;
      }
    }

    /** The application is asked for a buffer; it may have none left. */
    method AskBuffer() returns (granted: bool)
      modifies this`refusals
      ensures refusals == old(refusals) + if granted then 0 else 1
    {
      granted := *;
      refusals := refusals + if granted then 0 else 1;
    }

    /** RECV_ALLOC_BUF: check the length of the first fragment and ask the application for a buffer. */
    method StepAlloc() returns (stop: bool)
      requires Valid() && recv.state == AllocBuffer
      modifies this
      ensures app.delivered == old(app.delivered) && recv.header == old(recv.header) && |recv.header| == HEADER_SIZE
      ensures stop || !OversizedFirst(maxReceive, DecodeWord(recv.header)) ==> Valid()
      ensures Ledger(app, recv.buffer)
      ensures stop || (recv.state == ReadPayload && recv.buffer.Buffer?)
      ensures !stop ==> (recv.inWrOffset + recv.nb2read <= recv.buffer.capacity
                         <==> !OversizedFirst(maxReceive, DecodeWord(recv.header)))
      ensures recv.state == Dead <==> Refused(maxReceive, false, 0, DecodeWord(recv.header))
      ensures recv.state == Dead ==> stop && Reference().stage == Closed
      ensures refusals == old(refusals) + if stop && recv.state != Dead then 1 else 0
      ensures var w := DecodeWord(recv.header);
              !stop ==> recv.buffer.capacity == if w >= LAST_FLAG then Length(w) + HEADER_SIZE else maxReceive
    {
      hide FeedAll, Deliveries, Abstract, Issued, DecodeWord;
      var c := Parsed(recv);
      RefusedAgrees(maxReceive, recv, app, Reference());
      LengthIsRemainder(DecodeWord(recv.header));
      if FullLength(maxReceive, c) > maxReceive {
        recv := c;
        Disconnect();
        return true;
      }
      AllocatedAgrees(maxReceive, recv, app, Reference());
      var granted := AskBuffer();
      if !granted {
        // no buffer left: try again on the next event
        recv := c;
        return true;
      }
      recv, app := Allocated(maxReceive, c, app.nextId), app.(nextId := app.nextId + 1);
      return false;
    }

    /** RECV_PAYLOAD: read the rest of a fragment; deliver the message after its last one. */
    method StepPayload() returns (stop: bool, done: bool)
      requires Valid() && recv.state == ReadPayload
      modifies this`recv, this`app, socket
      ensures Valid() && old(socket.taken) <= socket.taken
      ensures !stop ==> old(socket.taken) < socket.taken && socket.tally == old(socket.tally) && recv.state != Dead
      ensures stop ==> WhyStopped(socket.tally, old(socket.tally), recv.state, Reference().stage)
      ensures Slower(old(socket.tally), socket.tally)
      ensures old(app.delivered) <= app.delivered
      ensures |app.delivered| == |old(app.delivered)| + if done then 1 else 0
    {
      hide FeedAll, Deliveries, Abstract, Ledger, DecodeWord;
      ghost var before := Reference();
      var status, data := socket.Recv(recv.nb2read - recv.nbread);
      ReferenceAdvances(old(socket.taken), before, data);
      if recv.nbread == recv.nb2read {
        EmptyFragmentAgrees(maxReceive, recv, app, before);
        FeedNothing(maxReceive, before);
      }
      stop, done := false, false;
      match status {
        case Complete =>
          if recv.lastRecord {
            MessageDoneAgrees(maxReceive, recv, app, before, data);
            recv := PayloadBytes(recv, data);
            app := app.(delivered := app.delivered + [Finished(recv)], deliveredIds := app.deliveredIds + [recv.buffer.id]);
            recv := recv.(buffer := NoBuffer, state := Idle);
            done := true;
          } else {
            FragmentDoneAgrees(maxReceive, recv, app, before, data);
            recv := Advanced(PayloadBytes(recv, data));
          }
        case Partial =>
          PayloadPieceAgrees(maxReceive, recv, app, before, data);
          recv := PayloadBytes(recv, data);
        case WouldBlock =>
          stop := true;
        case Disconnected =>
          FreeCurrent();
          Disconnect();
          stop := true;
      }
    }

    /**
      The callback of the socket controller: run until the socket is dry or the credit is
      used up.  It stops with `overrun` when a buffer is about to receive more than it
      holds, which is when the bytes read end with an oversized first header.
     */
    method OnReadable() returns (overrun: bool)
      requires Valid()
      modifies this, socket
      ensures socket.Valid() && old(socket.taken) <= socket.taken
      ensures !overrun ==> Valid()
      ensures overrun ==> Reference().stage == Overrun && app.delivered == Deliveries(Reference().done) && Ledger(app, recv.buffer)
      ensures FirstFragmentsFit(maxReceive, socket.stream) ==> !overrun
      ensures old(app.delivered) <= app.delivered && |app.delivered| <= |old(app.delivered)| + creditConf
      ensures recv.state == Dead ==>
                old(recv.state) == Dead || socket.tally.failures > old(socket.tally.failures) || Reference().stage == Closed
      ensures !overrun && recv.state != Dead && |app.delivered| < |old(app.delivered)| + creditConf ==>
                socket.tally.dries > old(socket.tally.dries) || refusals > old(refusals)
      ensures Slower(old(socket.tally), socket.tally) && old(refusals) <= refusals
    {
      hide FeedAll, Agrees, DecodeWord, OversizedFirst, Deliveries, Ledger;
      var credit := creditConf;
      overrun := false;
      while credit != 0
        invariant Valid() && 0 <= credit <= creditConf && old(socket.taken) <= socket.taken
        invariant old(app.delivered) <= app.delivered
        invariant |app.delivered| + credit == |old(app.delivered)| + creditConf
        invariant socket.tally == old(socket.tally) && refusals == old(refusals)
        invariant recv.state == Dead ==> old(recv.state) == Dead
        decreases |socket.stream| - socket.taken, Rank(recv.state)
      {
        var stop, done := false, false;
        match recv.state {
          case Idle =>
            RearmedAgrees(maxReceive, recv, app, Reference());
            recv := Rearmed(recv);
          case WaitHeader =>
            stop := StepHeader();
          case AllocBuffer =>
            AllocIsChecked(maxReceive, recv, app, Reference());
            stop := StepAlloc();
            if !stop && recv.inWrOffset + recv.nb2read > recv.buffer.capacity {
              return true;
            }
          case ReadPayload =>
            stop, done := StepPayload();
          case Dead =>
            stop := true;
        }
        if stop {
          return;
        }
        if done {
          credit := credit - 1;
        }
      }
    }
  }

  // --------------------------------------------------------------- what it guarantees

  /**
    Reassembly does not depend on how the stream is cut: whatever the socket and
    the application did, the messages delivered are those of the bytes read.
   */
  lemma DeliveredIsIndependentOfChunking(r: Receiver, ms: seq<Fragments>)
    requires r.Valid()
    requires forall i :: 0 <= i < |ms| ==> Sendable(r.maxReceive, ms[i])
    requires forall i, j :: 0 <= i < |ms| && 0 <= j < |ms[i]| ==> |ms[i][j]| < LAST_FLAG
    requires r.socket.stream == WireAll(ms)
    ensures r.app.delivered <= Deliveries(Payloads(ms))
    ensures r.socket.taken == |r.socket.stream| ==> r.app.delivered == Deliveries(Payloads(ms))
  {
    DecodePrefix(r.maxReceive, ms, r.socket.taken);
  }

  /** A valid stream gives no reason to close the connection, and never meets the unchecked case. */
  lemma SendableNeverStuck(max: nat, ms: seq<Fragments>, n: nat)
    requires forall i :: 0 <= i < |ms| ==> Sendable(max, ms[i])
    requires forall i, j :: 0 <= i < |ms| && 0 <= j < |ms[i]| ==> |ms[i][j]| < LAST_FLAG
    requires n <= |WireAll(ms)|
    ensures FeedAll(max, START, WireAll(ms)[..n]).stage != Closed
    ensures FeedAll(max, START, WireAll(ms)[..n]).stage != Overrun
  {
    var s := WireAll(ms);
    assert s == s[..n] + s[n..];
    FeedAllAppend(max, START, s[..n], s[n..]);
    DecodeWire(max, START, ms);
    var d := FeedAll(max, START, s[..n]);
    if d.stage == Closed || d.stage == Overrun {
      FeedStuck(max, d, s[n..]);
    }
  }

  lemma SendableNeverOverruns(max: nat, ms: seq<Fragments>)
    requires forall i :: 0 <= i < |ms| ==> Sendable(max, ms[i])
    requires forall i, j :: 0 <= i < |ms| && 0 <= j < |ms[i]| ==> |ms[i][j]| < LAST_FLAG
    ensures FirstFragmentsFit(max, WireAll(ms))
  {
    var s := WireAll(ms);
    forall n | 0 <= n <= |s| ensures FeedAll(max, START, s[..n]).stage != Overrun {
      SendableNeverStuck(max, ms, n);
    }
  }

  /** One event: unless everything has been read, it delivers a message, or else the socket stalled or a buffer was refused. */
  method ServeOnce(r: Receiver, ghost ms: seq<Fragments>)
    requires r.Valid() && r.creditConf >= 1
    requires forall i :: 0 <= i < |ms| ==> Sendable(r.maxReceive, ms[i])
    requires forall i, j :: 0 <= i < |ms| && 0 <= j < |ms[i]| ==> |ms[i][j]| < LAST_FLAG
    requires r.socket.stream == WireAll(ms)
    modifies r, r.socket
    ensures r.Valid() && old(r.socket.taken) <= r.socket.taken && Slower(old(r.socket.tally), r.socket.tally)
    ensures old(r.refusals) <= r.refusals && |old(r.app.delivered)| <= |r.app.delivered|
    ensures r.recv.state == Dead ==>
              || old(r.recv.state) == Dead || r.socket.taken == |r.socket.stream|
              || r.socket.tally.lost > old(r.socket.tally.lost)
    ensures r.recv.state != Dead ==>
              || r.socket.taken == |r.socket.stream| || |r.app.delivered| > |old(r.app.delivered)|
              || r.socket.tally.stalls > old(r.socket.tally.stalls) || r.refusals > old(r.refusals)
  {
    hide FeedAll, Agrees, Sendable, WireAll, Deliveries;
    SendableNeverOverruns(r.maxReceive, ms);
    var overrun := r.OnReadable();
    SendableNeverStuck(r.maxReceive, ms, r.socket.taken);
  }

  /**
    What was sent arrives.  The socket controller calls the receiver `n` times on a stream of
    valid messages.  If no read failed before the end of the stream, and more calls were made
    than there were messages to come, stalls of the socket and refused buffers together, then
    every message has been delivered, however the stream was cut.
   */
  method Serve(r: Receiver, n: nat, ghost ms: seq<Fragments>)
    requires r.Valid() && r.creditConf >= 1 && r.recv.state != Dead
    requires forall i :: 0 <= i < |ms| ==> Sendable(r.maxReceive, ms[i])
    requires forall i, j :: 0 <= i < |ms| && 0 <= j < |ms[i]| ==> |ms[i][j]| < LAST_FLAG
    requires r.socket.stream == WireAll(ms)
    modifies r, r.socket
    ensures r.Valid() && r.app.delivered <= Deliveries(Payloads(ms))
    ensures
      var obstacles := r.socket.tally.stalls - old(r.socket.tally.stalls) + r.refusals - old(r.refusals);
      r.socket.tally.lost == old(r.socket.tally.lost) && n > |ms| - |old(r.app.delivered)| + obstacles ==>
        r.app.delivered == Deliveries(Payloads(ms))
  {
    hide FeedAll, Agrees, Sendable, WireAll;
    for i := 0 to n
      invariant r.Valid() && old(r.socket.tally.lost) <= r.socket.tally.lost
      invariant r.socket.tally.lost == old(r.socket.tally.lost) && r.socket.taken < |r.socket.stream| ==>
                  r.recv.state != Dead &&
                  i <= |r.app.delivered| - |old(r.app.delivered)|
                       + r.socket.tally.stalls - old(r.socket.tally.stalls) + r.refusals - old(r.refusals)
    {
      ServeOnce(r, ms);
    }
    DeliveredIsIndependentOfChunking(r, ms);
  }

  /** Every buffer that was allocated went to exactly one place, and a dead receiver holds none. */
  lemma BuffersAccountedFor(r: Receiver, id: nat)
    requires r.Valid() && id < r.app.nextId
    ensures multiset(r.app.deliveredIds)[id] + multiset(r.app.freedIds)[id] + Held(r.recv.buffer)[id] == 1
    ensures r.recv.state == Dead ==> Held(r.recv.buffer) == multiset{}
  {
    IssuedOnce(r.app.nextId, id);
    var all := multiset(r.app.deliveredIds) + multiset(r.app.freedIds) + Held(r.recv.buffer);
    assert all[id] == Issued(r.app.nextId)[id];
  }

  lemma {:induction false} IssuedOnce(n: nat, id: nat)
    ensures Issued(n)[id] == if id < n then 1 else 0
  {
    if n > 0 {
      IssuedOnce(n - 1, id);
    }
  }
}
