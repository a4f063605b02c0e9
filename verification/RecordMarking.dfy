/**
  Record marking (section 11 of RFC 5531), byte by byte.

  A message is a sequence of fragments.  Every fragment starts with a 4-byte
  header: its length, with the highest bit set on the last fragment of the
  message.  `Decoder` is the reference: it is fed one byte at a time, so it
  cannot depend on how the byte stream is cut into pieces.
 */
module RecordMarking {

  import opened Bytes

  const HEADER_SIZE := 4
  const LAST_FLAG := 0x8000_0000
  const WORD := 0x1_0000_0000

  /** Value of a 32-bit word in network order. */
  function DecodeWord(h: seq<byte>): (w: int)
    requires |h| == HEADER_SIZE
    ensures 0 <= w < WORD
  {
    var b0: int, b1: int, b2: int, b3: int := h[0], h[1], h[2], h[3];
    b0 * 0x100_0000 + b1 * 0x1_0000 + b2 * 0x100 + b3
  }

  function EncodeWord(w: int): (h: seq<byte>)
    requires 0 <= w < WORD
    ensures |h| == HEADER_SIZE
  {
    [w / 0x100_0000, w / 0x1_0000 % 256, w / 0x100 % 256, w % 256]
  }

  /** Network order: the first byte counts most, each 256 times the next one.  These laws leave no other decoding. */
  lemma NetworkOrder(a: byte, b: byte, c: byte, d: byte)
    ensures DecodeWord([0, 0, 0, 0]) == 0
    ensures DecodeWord([a, b, c, d]) == DecodeWord([a, b, c, 0]) + d
    ensures DecodeWord([b, c, d, 0]) == 256 * DecodeWord([0, b, c, d])
  {}

  lemma WordRoundTrip(w: int)
    requires 0 <= w < WORD
    ensures DecodeWord(EncodeWord(w)) == w
  {
    var a, b, c := w / 0x100, w / 0x1_0000, w / 0x100_0000;
    assert a / 256 == b && b / 256 == c;
    assert w == a * 256 + w % 256;
    assert a == b * 256 + a % 256;
    assert b == c * 256 + b % 256;
  }

  function Length(w: int): int {
    if w >= LAST_FLAG then w - LAST_FLAG else w
  }

  /** What the application gets: the total length, marked as a last fragment, then the payload. */
  function Delivery(payload: seq<byte>): seq<byte> {
    EncodeWord(|payload| % LAST_FLAG + LAST_FLAG) + payload
  }

  function Deliveries(payloads: seq<seq<byte>>): (r: seq<seq<byte>>)
    ensures |r| == |payloads| && forall i :: 0 <= i < |r| ==> r[i] == Delivery(payloads[i])
  {
    if payloads == [] then [] else [Delivery(payloads[0])] + Deliveries(payloads[1..])
  }

  /** A delivered buffer is a record of a single, last fragment: its own header, then the payload. */
  lemma DeliveryIsRecord(payload: seq<byte>)
    requires |payload| < LAST_FLAG
    ensures |Delivery(payload)| == HEADER_SIZE + |payload| && Delivery(payload)[HEADER_SIZE..] == payload
    ensures DecodeWord(Delivery(payload)[..HEADER_SIZE]) == LAST_FLAG + |payload|
    ensures Delivery(payload) == Wire([payload])
  {
    WordRoundTrip(|payload| + LAST_FLAG);
    assert Delivery(payload)[..HEADER_SIZE] == EncodeWord(|payload| + LAST_FLAG);
    assert Wire([payload][1..]) == [];
  }

  // ------------------------------------------------------------------ the decoder

  /**
    Overrun is entered when the first fragment of a message is too long for any
    buffer but is not the last one: the receiver does not check that case.
   */
  datatype Stage =
    | Header(got: seq<byte>)
    | Data(left: nat, last: bool)
    | Closed
    | Overrun

  /** Payloads of the complete messages; payload of the message in progress, once it has a fragment. */
  datatype Decoder = Decoder(done: seq<seq<byte>>, msg: seq<byte>, started: bool, stage: Stage)

  const START := Decoder([], [], false, Header([]))

  /** A first fragment longer than the largest buffer, with more to come. */
  predicate OversizedFirst(max: nat, w: int) {
    w < LAST_FLAG && Length(w) + HEADER_SIZE > max
  }

  /** The length checks: a single fragment, or a message total, that exceeds `max` closes the connection. */
  predicate Refused(max: nat, started: bool, total: nat, w: int) {
    if started then total + Length(w) + HEADER_SIZE > max
    else w >= LAST_FLAG && Length(w) + HEADER_SIZE > max
  }

  /** A complete header: refused, or empty (an empty read looks like an end of file), or data follow. */
  function AfterHeader(max: nat, d: Decoder, h: seq<byte>): Decoder
    requires |h| == HEADER_SIZE
  {
    var w := DecodeWord(h);
    if !d.started && OversizedFirst(max, w) then Decoder(d.done, [], false, Overrun)
    else if Refused(max, d.started, |d.msg|, w) || Length(w) == 0 then Decoder(d.done, [], false, Closed)
    else d.(started := true, stage := Data(Length(w), w >= LAST_FLAG))
  }

  /** The last byte of a fragment has arrived. */
  function AfterData(d: Decoder, last: bool): Decoder {
    if last then Decoder(d.done + [d.msg], [], false, Header([])) else d.(stage := Header([]))
  }

  function Feed(max: nat, d: Decoder, b: byte): Decoder {
    match d.stage
    case Header(got) =>
      if |got| + 1 == HEADER_SIZE then AfterHeader(max, d, got + [b]) else d.(stage := Header(got + [b]))
    case Data(left, last) =>
      var d' := d.(msg := d.msg + [b]);
      if left <= 1 then AfterData(d', last) else d'.(stage := Data(left - 1, last))
    case Closed => d
    case Overrun => d
  }

  function FeedAll(max: nat, d: Decoder, s: seq<byte>): Decoder
    decreases |s|
  {
    if s == [] then d else FeedAll(max, Feed(max, d, s[0]), s[1..])
  }

  lemma {:induction false} FeedAllAppend(max: nat, d: Decoder, s: seq<byte>, t: seq<byte>)
    ensures FeedAll(max, d, s + t) == FeedAll(max, FeedAll(max, d, s), t)
    decreases |s|
  {
    if s == [] {
      assert s + t == t;
    } else {
      assert (s + t)[1..] == s[1..] + t;
      FeedAllAppend(max, Feed(max, d, s[0]), s[1..], t);
    }
  }

  /** Any piece of a header. */
  lemma {:induction false} FeedHeader(max: nat, d: Decoder, s: seq<byte>)
    requires d.stage.Header? && |d.stage.got| + |s| <= HEADER_SIZE && |d.stage.got| < HEADER_SIZE
    ensures FeedAll(max, d, s) ==
            if |d.stage.got| + |s| == HEADER_SIZE then AfterHeader(max, d, d.stage.got + s)
            else d.(stage := Header(d.stage.got + s))
    decreases |s|
  {
    var got := d.stage.got;
    if s == [] {
      assert got + s == got;
    } else {
      var d' := Feed(max, d, s[0]);
      assert got + s == got + [s[0]] + s[1..];
      if |s| == 1 {
        assert s[1..] == [];
        assert FeedAll(max, d', []) == d';
        assert got + s == got + [s[0]];
      } else {
        FeedHeader(max, d', s[1..]);
      }
    }
  }

  /** Any piece of the data of a fragment. */
  lemma {:induction false} FeedData(max: nat, d: Decoder, s: seq<byte>)
    requires d.stage.Data? && 1 <= |s| <= d.stage.left
    ensures FeedAll(max, d, s) ==
            if |s| == d.stage.left then AfterData(d.(msg := d.msg + s), d.stage.last)
            else d.(msg := d.msg + s, stage := Data(d.stage.left - |s|, d.stage.last))
    decreases |s|
  {
    var d' := Feed(max, d, s[0]);
    assert s == [s[0]] + s[1..];
    assert d.msg + s == d.msg + [s[0]] + s[1..];
    if |s| == 1 {
      assert FeedAll(max, d', s[1..]) == d';
      assert d.msg + s == d.msg + [s[0]];
    } else {
      FeedData(max, d', s[1..]);
    }
  }

  lemma {:induction false} FeedStuck(max: nat, d: Decoder, s: seq<byte>)
    requires d.stage.Closed? || d.stage.Overrun?
    ensures FeedAll(max, d, s) == d
    decreases |s|
  {
    if s != [] {
      FeedStuck(max, Feed(max, d, s[0]), s[1..]);
    }
  }

  /** Complete messages are never taken back. */
  lemma {:induction false} DoneGrows(max: nat, d: Decoder, s: seq<byte>)
    ensures d.done <= FeedAll(max, d, s).done
    decreases |s|
  {
    if s != [] {
      DoneGrows(max, Feed(max, d, s[0]), s[1..]);
    }
  }

  // ------------------------------------------------------------------ the sender's view

  /** A message as the sender cuts it: a first fragment and further ones. */
  type Fragments = seq<seq<byte>>

  function Payload(fs: Fragments): seq<byte> {
    if fs == [] then [] else fs[0] + Payload(fs[1..])
  }

  ghost predicate Sendable(max: nat, fs: Fragments) {
    && fs != [] && max < LAST_FLAG
    && |Payload(fs)| + HEADER_SIZE <= max
    && forall i :: 0 <= i < |fs| ==> fs[i] != []
  }

  /** The fragments with their headers; only the last one carries the flag. */
  function Wire(fs: Fragments): seq<byte>
    requires forall i :: 0 <= i < |fs| ==> |fs[i]| < LAST_FLAG
  {
    if fs == [] then []
    else EncodeWord(|fs[0]| + if |fs| == 1 then LAST_FLAG else 0) + fs[0] + Wire(fs[1..])
  }

  lemma {:induction false} PayloadBounds(fs: Fragments)
    ensures forall i :: 0 <= i < |fs| ==> |fs[i]| <= |Payload(fs)|
  {
    if fs != [] {
      PayloadBounds(fs[1..]);
      forall i | 0 <= i < |fs| ensures |fs[i]| <= |Payload(fs)| {
        if i > 0 {
          assert fs[i] == fs[1..][i - 1];
        }
      }
    }
  }

  /** One fragment on the wire, fed to a decoder that is not refusing it. */
  lemma FeedFragment(max: nat, d: Decoder, f: seq<byte>, last: bool)
    requires d.stage == Header([]) && max < LAST_FLAG && f != []
    requires |d.msg| + |f| + HEADER_SIZE <= max
    ensures FeedAll(max, d, EncodeWord(|f| + if last then LAST_FLAG else 0) + f) ==
            AfterData(d.(msg := d.msg + f, started := true, stage := Data(|f|, last)), last)
  {
    var w := |f| + if last then LAST_FLAG else 0;
    var h := EncodeWord(w);
    WordRoundTrip(w);
    FeedAllAppend(max, d, h, f);
    FeedHeader(max, d, h);
    assert [] + h == h;
    var d1 := d.(started := true, stage := Data(|f|, last));
    assert AfterHeader(max, d, h) == d1;
    FeedData(max, d1, f);
  }

  /** The rest of a message, of which d has received the beginning. */
  lemma {:induction false} FeedRest(max: nat, d: Decoder, fs: Fragments)
    requires fs != [] && max < LAST_FLAG && d.stage == Header([])
    requires |d.msg| + |Payload(fs)| + HEADER_SIZE <= max
    requires forall i :: 0 <= i < |fs| ==> fs[i] != [] && |fs[i]| < LAST_FLAG
    ensures FeedAll(max, d, Wire(fs)) == Decoder(d.done + [d.msg + Payload(fs)], [], false, Header([]))
    decreases |fs|
  {
    var f, last := fs[0], |fs| == 1;
    var head := EncodeWord(|f| + if last then LAST_FLAG else 0) + f;
    FeedFragment(max, d, f, last);
    FeedAllAppend(max, d, head, Wire(fs[1..]));
    var d1 := FeedAll(max, d, head);
    if last {
      assert fs[1..] == [];
      assert Payload(fs) == f;
    } else {
      FeedRest(max, d1, fs[1..]);
      assert d.msg + f + Payload(fs[1..]) == d.msg + (f + Payload(fs[1..]));
    }
  }

  function WireAll(ms: seq<Fragments>): seq<byte>
    requires forall i, j :: 0 <= i < |ms| && 0 <= j < |ms[i]| ==> |ms[i][j]| < LAST_FLAG
  {
    if ms == [] then [] else Wire(ms[0]) + WireAll(ms[1..])
  }

  function Payloads(ms: seq<Fragments>): (r: seq<seq<byte>>)
    ensures |r| == |ms|
  {
    if ms == [] then [] else [Payload(ms[0])] + Payloads(ms[1..])
  }

  lemma SendableIsShort(max: nat, ms: seq<Fragments>)
    requires forall i :: 0 <= i < |ms| ==> Sendable(max, ms[i])
    ensures forall i, j :: 0 <= i < |ms| && 0 <= j < |ms[i]| ==> |ms[i][j]| < LAST_FLAG
  {
    forall i, j | 0 <= i < |ms| && 0 <= j < |ms[i]| ensures |ms[i][j]| < LAST_FLAG {
      PayloadBounds(ms[i]);
    }
  }

  lemma FeedNothing(max: nat, d: Decoder)
    ensures FeedAll(max, d, []) == d
  {}

  /** Decoding what was sent gives back the payloads, however the messages were cut into fragments. */
  lemma {:induction false} DecodeWire(max: nat, d: Decoder, ms: seq<Fragments>)
    requires forall i :: 0 <= i < |ms| ==> Sendable(max, ms[i])
    requires forall i, j :: 0 <= i < |ms| && 0 <= j < |ms[i]| ==> |ms[i][j]| < LAST_FLAG
    requires d.stage == Header([]) && d.msg == [] && !d.started
    ensures FeedAll(max, d, WireAll(ms)) == Decoder(d.done + Payloads(ms), [], false, Header([]))
    decreases |ms|
  {
    hide FeedAll, Wire, Payload;
    FeedNothing(max, d);
    if ms == [] {
      assert d.done + Payloads(ms) == d.done;
    } else {
      FeedAllAppend(max, d, Wire(ms[0]), WireAll(ms[1..]));
      FeedRest(max, d, ms[0]);
      assert [] + Payload(ms[0]) == Payload(ms[0]);
      var d1 := FeedAll(max, d, Wire(ms[0]));
      forall i, j | 0 <= i < |ms[1..]| && 0 <= j < |ms[1..][i]| ensures |ms[1..][i][j]| < LAST_FLAG {
        assert ms[1..][i] == ms[i + 1];
      }
      DecodeWire(max, d1, ms[1..]);
      assert d.done + [Payload(ms[0])] + Payloads(ms[1..]) == d.done + ([Payload(ms[0])] + Payloads(ms[1..]));
    }
  }

  /** In every prefix of a valid stream, the complete messages are a prefix of those that were sent. */
  lemma DecodePrefix(max: nat, ms: seq<Fragments>, n: nat)
    requires forall i :: 0 <= i < |ms| ==> Sendable(max, ms[i])
    requires forall i, j :: 0 <= i < |ms| && 0 <= j < |ms[i]| ==> |ms[i][j]| < LAST_FLAG
    requires n <= |WireAll(ms)|
    ensures FeedAll(max, START, WireAll(ms)[..n]).done <= Payloads(ms)
    ensures n == |WireAll(ms)| ==> FeedAll(max, START, WireAll(ms)[..n]).done == Payloads(ms)
  {
    var s := WireAll(ms);
    assert s == s[..n] + s[n..];
    FeedAllAppend(max, START, s[..n], s[n..]);
    DoneGrows(max, FeedAll(max, START, s[..n]), s[n..]);
    DecodeWire(max, START, ms);
    assert [] + Payloads(ms) == Payloads(ms);
    if n == |s| {
      assert s[..n] == s;
    }
  }
}
