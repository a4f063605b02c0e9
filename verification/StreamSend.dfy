/**
  The transmitter of the stream sockets: a state machine that drains a queue of
  buffers over partial sends and congestion, with reference counts on the
  buffers and a purge of the queue when the connection dies.
 */
module StreamSend {

  import opened Bytes
  import opened Options

  /** A submission of buffer `id`, with its payload. */
  datatype Item = Item(id: nat, payload: seq<byte>)

  /** Reference count of a buffer, whether it is back in its pool, and whether its opaque reference designates this socket. */
  datatype Counter = Counter(inuse: nat, free: bool, ours: bool)
  type Pool = map<nat, Counter>

  /** The references to a buffer that are not the transmitter's own, and its opaque reference; other holders change both at will. */
  datatype Holding = Holding(count: nat, ours: bool)
  type Holders = map<nat, Holding>

  /** How a submission left: sent, failed in a send, current or still queued when the connection was torn down. */
  datatype Cause = Transmitted | Failed | CutOff | NeverStarted

  /** What became of a submission: freed here, left to its other users, or handed back to the application. */
  datatype Fate = Freed | Shared | DoneCallback | DiscCallback

  /** A fate, with its cause, and the references and the opaque reference that were left when it was decided. */
  datatype Settlement = Settlement(item: Item, cause: Cause, fate: Fate, inuse: nat, ours: bool)

  datatype State = Unborn | Ready | InProgress | CheckQueue | Congested | Dead

  /** com_xmit_template_t. */
  datatype Xmit = Xmit(state: State, current: Option<Item>, nbWrite: nat, nb2Write: nat, queue: seq<Item>,
                       congestedFlag: bool)

  /** The history of a socket: submissions that were not withdrawn, complete sends, fates, and the bytes on the wire. */
  datatype History = History(accepted: seq<Item>, sent: seq<Item>, fates: seq<Settlement>, wire: seq<byte>, totalBytes: nat,
                             others: Holders, withdrawn: seq<Item>)

  /** Which of the two optional callbacks the application provides. */
  datatype Config = Config(hasDone: bool, hasDisc: bool)

  // ------------------------------------------------------------------ descriptions

  function Concat(items: seq<Item>): seq<byte> {
    if items == [] then [] else items[0].payload + Concat(items[1..])
  }

  lemma {:induction false} ConcatAppend(a: seq<Item>, b: seq<Item>)
    ensures Concat(a + b) == Concat(a) + Concat(b)
  {
    if a == [] {
      assert a + b == b;
    } else {
      assert (a + b)[1..] == a[1..] + b;
      ConcatAppend(a[1..], b);
    }
  }

  function Cur(x: Xmit): seq<Item> {
    if x.current.Some? then [x.current.value] else []
  }

  /** The submissions in the transmitter, the current one first. */
  function Inside(x: Xmit): seq<Item> {
    Cur(x) + x.queue
  }

  function Settled(fates: seq<Settlement>): (r: seq<Item>)
    ensures |r| == |fates|
  {
    if fates == [] then [] else Settled(fates[..|fates| - 1]) + [fates[|fates| - 1].item]
  }

  lemma SettledSnoc(fates: seq<Settlement>, e: Settlement)
    ensures Settled(fates + [e]) == Settled(fates) + [e.item]
  {
    assert (fates + [e])[..|fates|] == fates;
  }

  /** What a fate adds to the settled submissions. */
  lemma SettledMore(fates: seq<Settlement>, e: Settlement)
    ensures multiset(Settled(fates + [e])) == multiset(Settled(fates)) + multiset{e.item}
  {
    SettledSnoc(fates, e);
  }

  lemma ConsMultiset(it: Item, s: seq<Item>, t: seq<Item>)
    requires s == [it] + t
    ensures multiset(s) == multiset{it} + multiset(t)
  {}

  /** The submissions that left for a given cause, in the order in which they left. */
  function With(fates: seq<Settlement>, c: Cause): seq<Item> {
    if fates == [] then []
    else With(fates[..|fates| - 1], c) + if fates[|fates| - 1].cause == c then [fates[|fates| - 1].item] else []
  }

  lemma WithSnoc(fates: seq<Settlement>, e: Settlement, c: Cause)
    ensures With(fates + [e], c) == With(fates, c) + if e.cause == c then [e.item] else []
  {
    assert (fates + [e])[..|fates|] == fates;
  }

  /**
    The fate that a submission must meet.  The done callback gets a buffer that was sent, or was
    current at the disconnection, exactly when it is still this socket's, and a queued one always;
    the disconnect callback gets a failed one exactly when it is still this socket's.  Only what
    is handed to nobody may be freed, and that exactly when one reference is left.
   */
  predicate Deserved(cfg: Config, e: Settlement) {
    && e.inuse >= 1
    && (e.fate == DoneCallback <==> cfg.hasDone && (e.cause == NeverStarted || (e.cause != Failed && e.ours)))
    && (e.fate == DiscCallback <==> cfg.hasDisc && e.cause == Failed && e.ours)
    && (e.fate == Freed ==> e.inuse == 1)
    && (e.fate == Shared ==> e.inuse > 1)
  }

  /** The fates decided between two histories went by what other holders had, and made of the buffer, at the time. */
  ghost predicate DecidedNow(h: History, h': History) {
    && h'.others == h.others && h.fates <= h'.fates
    && forall i :: |h.fates| <= i < |h'.fates| ==>
         var e := h'.fates[i];
         e.item.id in h.others && h.others[e.item.id] == Holding(e.inuse, e.ours)
  }

  /** Buffer `id` is allocated, with `n` references. */
  ghost predicate Has(pool: Pool, id: nat, n: nat) {
    id in pool && !pool[id].free && pool[id].inuse == n
  }

  /** Somebody else holds buffer `id`, and the transmitter has `own` references to it. */
  ghost predicate HeldBy(pool: Pool, others: Holders, id: nat, own: nat) {
    id in others && 1 <= others[id].count && Has(pool, id, others[id].count + own) && pool[id].ours == others[id].ours
  }

  ghost predicate QueueCounted(q: seq<Item>, pool: Pool, others: Holders) {
    && (forall i :: 0 <= i < |q| ==> HeldBy(pool, others, q[i].id, 0))
    && (forall i, j :: 0 <= i < j < |q| ==> q[i].id != q[j].id)
  }

  /** The transmitter has one reference of its own to the current submission, and none to the queued ones. */
  ghost predicate Counted(x: Xmit, pool: Pool, others: Holders) {
    && QueueCounted(x.queue, pool, others)
    && (x.current.Some? ==>
          && HeldBy(pool, others, x.current.value.id, 1)
          && forall i :: 0 <= i < |x.queue| ==> x.queue[i].id != x.current.value.id)
  }

  /** How the state describes the current submission. */
  ghost predicate Shape(x: Xmit) {
    && x.congestedFlag == (x.state == Congested)
    && match x.state
       case Unborn => x.current.None? && x.queue == []
       case Ready => x.nbWrite == 0 && (x.current.None? ==> x.queue == [])
       case InProgress => x.current.Some? && x.nbWrite <= x.nb2Write == |x.current.value.payload|
       case CheckQueue => x.current.None? && x.nbWrite == 0
       case Congested => x.current.Some? && x.nbWrite <= x.nb2Write == |x.current.value.payload|
       case Dead => x.current.None? && x.queue == []
  }

  function Written(x: Xmit): seq<byte> {
    if x.current.Some? && x.nbWrite <= |x.current.value.payload| then x.current.value.payload[..x.nbWrite] else []
  }

  /** The bytes on the wire are those of the complete sends and of what is written of the current one. */
  ghost predicate Ordered(x: Xmit, h: History) {
    && h.totalBytes == |h.wire|
    && if x.state == Dead then
         h.wire <= Concat(h.accepted) && h.sent <= h.accepted && Concat(h.sent) <= h.wire
       else
         h.accepted == h.sent + Inside(x) && h.wire == Concat(h.sent) + Written(x)
  }

  /** Every submission is inside or has met exactly one fate. */
  ghost predicate Accounted(cfg: Config, x: Xmit, h: History) {
    && multiset(Settled(h.fates)) + multiset(Inside(x)) == multiset(h.accepted)
    && With(h.fates, Transmitted) == h.sent
    && forall i :: 0 <= i < |h.fates| ==> Deserved(cfg, h.fates[i])
  }

  ghost predicate Agrees(cfg: Config, x: Xmit, h: History, pool: Pool) {
    Shape(x) && Counted(x, pool, h.others) && Ordered(x, h) && Accounted(cfg, x, h)
  }

  // -------------------------------------------------------------- the buffer counters

  /** Put a buffer back into its pool. */
  function Free(pool: Pool, id: nat): Pool {
    pool[id := Counter(0, true, false)]
  }

  function AfterFate(pool: Pool, id: nat, f: Fate): Pool {
    if f == Freed then Free(pool, id) else pool
  }

  /** The pool after the transmitter gave up a reference. */
  function Dropped(pool: Pool, id: nat): Pool
    requires id in pool && pool[id].inuse >= 1
  {
    pool[id := pool[id].(inuse := pool[id].inuse - 1)]
  }

  /** Fate of a buffer that was sent, or that was current when the connection died. */
  function FateOfCurrent(cfg: Config, ours: bool, inuse: nat): Fate {
    if cfg.hasDone && ours then DoneCallback else if inuse == 1 then Freed else Shared
  }

  /** Fate of the buffer on which a send failed. */
  function FateOfFailed(cfg: Config, ours: bool, inuse: nat): Fate {
    if cfg.hasDisc && ours then DiscCallback else if inuse == 1 then Freed else Shared
  }

  /** Fate of a buffer that was still queued when the connection died. */
  function FateOfQueued(cfg: Config, inuse: nat): Fate {
    if cfg.hasDone then DoneCallback else if inuse == 1 then Freed else Shared
  }

  lemma FateKeepsQueue(q: seq<Item>, pool: Pool, others: Holders, id: nat, c: Counter)
    requires QueueCounted(q, pool, others) && forall i :: 0 <= i < |q| ==> q[i].id != id
    ensures QueueCounted(q, pool[id := c], others)
  {}

  // ------------------------------------------------------------ the steps, as functions

  /** The rest of the current buffer has been written. */
  function SentAll(x: Xmit): Xmit {
    x.(current := None, nbWrite := 0, nb2Write := 0, state := CheckQueue)
  }

  /** One more complete send. */
  function WithSent(h: History, e: Settlement, rest: seq<byte>): History {
    History(h.accepted, h.sent + [e.item], h.fates + [e], h.wire + rest, h.totalBytes + |rest|, h.others, h.withdrawn)
  }

  lemma SentAllCounted(x: Xmit, pool: Pool, others: Holders, f: Fate)
    requires Counted(x, pool, others) && x.current.Some?
    ensures Counted(SentAll(x), AfterFate(Dropped(pool, x.current.value.id), x.current.value.id, f), others)
  {
    var id := x.current.value.id;
    FateKeepsQueue(x.queue, pool, others, id, Dropped(pool, id)[id]);
    FateKeepsQueue(x.queue, Dropped(pool, id), others, id, Counter(0, true, false));
  }

  lemma SentAllOrdered(x: Xmit, h: History, e: Settlement)
    requires Shape(x) && Ordered(x, h) && x.state == InProgress && e.item == x.current.value
    ensures Ordered(SentAll(x), WithSent(h, e, e.item.payload[x.nbWrite..]))
  {
    var it := x.current.value;
    var rest, sent := it.payload[x.nbWrite..], h.sent + [it];
    assert h.sent + Inside(x) == sent + x.queue;
    assert Inside(SentAll(x)) == x.queue;
    ConcatAppend(h.sent, [it]);
    assert Concat([it]) == it.payload;
    assert it.payload[..x.nbWrite] + rest == it.payload;
    assert Concat(h.sent) + it.payload[..x.nbWrite] + rest == Concat(sent);
  }

  /** A submission leaves the transmitter with its fate. */
  lemma SettledAccounted(cfg: Config, x: Xmit, x': Xmit, h: History, h': History, e: Settlement)
    requires Accounted(cfg, x, h) && Inside(x) == [e.item] + Inside(x') && Deserved(cfg, e) && e.cause == Transmitted
    requires h'.accepted == h.accepted && h'.fates == h.fates + [e] && h'.sent == h.sent + [e.item]
    ensures Accounted(cfg, x', h')
  {
    hide Settled, Concat, Deserved, With;
    SettledMore(h.fates, e);
    WithSnoc(h.fates, e, Transmitted);
    ConsMultiset(e.item, Inside(x), Inside(x'));
  }

  /** A complete send, whatever the other holders did since the submission: the fate goes by what they hold now. */
  lemma SentAllAgrees(cfg: Config, x: Xmit, h: History, pool: Pool, e: Settlement)
    requires Agrees(cfg, x, h, pool) && x.state == InProgress
    requires e.item == x.current.value && e.item.id in pool && e.inuse == pool[e.item.id].inuse - 1
    requires e.cause == Transmitted && e.ours == pool[e.item.id].ours && e.fate == FateOfCurrent(cfg, e.ours, e.inuse)
    ensures h.others[e.item.id] == Holding(e.inuse, e.ours) && e.inuse >= 1
    ensures e.fate == DoneCallback <==> cfg.hasDone && pool[e.item.id].ours
    ensures e.fate == Freed ==> h.others[e.item.id].count == 1
    ensures Agrees(cfg, SentAll(x), WithSent(h, e, e.item.payload[x.nbWrite..]), AfterFate(Dropped(pool, e.item.id), e.item.id, e.fate))
  {
    hide Concat, Settled, With;
    SentAllCounted(x, pool, h.others, e.fate);
    SentAllOrdered(x, h, e);
    assert Inside(x) == [e.item] + Inside(SentAll(x));
    SettledAccounted(cfg, x, SentAll(x), h, WithSent(h, e, e.item.payload[x.nbWrite..]), e);
  }

  lemma SentSomeAgrees(cfg: Config, x: Xmit, h: History, pool: Pool, n: nat)
    requires Agrees(cfg, x, h, pool) && x.state == InProgress && x.nbWrite + n <= x.nb2Write
    ensures var data := x.current.value.payload[x.nbWrite..x.nbWrite + n];
            Agrees(cfg, x.(nbWrite := x.nbWrite + n), h.(wire := h.wire + data, totalBytes := h.totalBytes + n), pool)
  {
    var p := x.current.value.payload;
    assert p[..x.nbWrite] + p[x.nbWrite..x.nbWrite + n] == p[..x.nbWrite + n];
    assert Concat(h.sent) + p[..x.nbWrite + n] == Concat(h.sent) + p[..x.nbWrite] + p[x.nbWrite..x.nbWrite + n];
  }

  /** The first queued buffer becomes the current one. */
  function Popped(x: Xmit): Xmit
    requires x.queue != []
  {
    x.(current := Some(x.queue[0]), queue := x.queue[1..], state := Ready)
  }

  /** The pool after the transmitter took a reference. */
  function Raised(pool: Pool, id: nat): Pool
    requires id in pool
  {
    pool[id := pool[id].(inuse := pool[id].inuse + 1)]
  }

  lemma PoppedCounted(x: Xmit, pool: Pool, others: Holders)
    requires Counted(x, pool, others) && x.current.None? && x.queue != []
    ensures Counted(Popped(x), Raised(pool, x.queue[0].id), others)
  {
    var it := x.queue[0];
    FateKeepsQueue(x.queue[1..], pool, others, it.id, Raised(pool, it.id)[it.id]);
  }

  lemma PoppedAgrees(cfg: Config, x: Xmit, h: History, pool: Pool)
    requires Agrees(cfg, x, h, pool) && x.state == CheckQueue && x.queue != []
    ensures x.queue[0].id in pool && Agrees(cfg, Popped(x), h, Raised(pool, x.queue[0].id))
  {
    PoppedCounted(x, pool, h.others);
    hide Counted, QueueCounted, Deserved;
    assert Inside(Popped(x)) == Inside(x);
    assert x.queue[0].payload[..0] == [];
  }

  /** One more submission, accepted behind all the others; the references it came with are the other holders'. */
  function Accept(h: History, it: Item, o: Holding): History {
    h.(accepted := h.accepted + [it], others := h.others[it.id := o])
  }

  lemma AcceptedAccounted(cfg: Config, x: Xmit, x': Xmit, h: History, it: Item, o: Holding)
    requires Accounted(cfg, x, h) && Inside(x') == Inside(x) + [it]
    ensures Accounted(cfg, x', Accept(h, it, o))
  {
    hide Deserved, Settled, With, Inside;
    assert multiset(h.accepted + [it]) == multiset(h.accepted) + multiset{it};
  }

  lemma AcceptedOrdered(x: Xmit, x': Xmit, h: History, it: Item, o: Holding)
    requires Ordered(x, h) && Inside(x') == Inside(x) + [it] && x.state != Dead && x'.state == x.state
    requires Written(x') == Written(x)
    ensures Ordered(x', Accept(h, it, o))
  {
    assert h.sent + (Inside(x) + [it]) == h.sent + Inside(x) + [it];
  }

  /** A buffer submitted to an idle transmitter. */
  lemma StartedAgrees(cfg: Config, x: Xmit, h: History, pool: Pool, it: Item, inuse: nat)
    requires Agrees(cfg, x, h, pool) && x.state == Ready && x.current.None?
    requires 1 <= inuse && Has(pool, it.id, inuse)
    ensures Agrees(cfg, x.(current := Some(it)), Accept(h, it, Holding(inuse, true)), pool[it.id := Counter(inuse + 1, false, true)])
  {
    hide Ordered, Accounted;
    var x' := x.(current := Some(it));
    assert it.payload[..0] == [];
    assert Inside(x') == Inside(x) + [it];
    AcceptedOrdered(x, x', h, it, Holding(inuse, true));
    AcceptedAccounted(cfg, x, x', h, it, Holding(inuse, true));
  }

  lemma QueuedCounted(x: Xmit, pool: Pool, others: Holders, it: Item, o: Holding)
    requires Counted(x, pool, others) && 1 <= o.count && Has(pool, it.id, o.count) && pool[it.id].ours == o.ours
    requires forall i :: 0 <= i < |Inside(x)| ==> Inside(x)[i].id != it.id
    ensures Counted(x.(queue := x.queue + [it]), pool, others[it.id := o])
  {
    if x.current.Some? {
      assert Inside(x)[0] == x.current.value;
      forall i | 0 <= i < |x.queue| ensures x.queue[i].id != it.id {
        assert Inside(x)[i + 1] == x.queue[i];
      }
    } else {
      assert Inside(x) == x.queue;
    }
  }

  /** A buffer submitted to a busy transmitter. */
  lemma QueuedAgrees(cfg: Config, x: Xmit, h: History, pool: Pool, it: Item, o: Holding)
    requires Agrees(cfg, x, h, pool) && x.state != Dead && x.state != Unborn && (x.state == Ready ==> x.current.Some?)
    requires 1 <= o.count && Has(pool, it.id, o.count) && pool[it.id].ours == o.ours
    requires forall i :: 0 <= i < |Inside(x)| ==> Inside(x)[i].id != it.id
    ensures Agrees(cfg, x.(queue := x.queue + [it]), Accept(h, it, o), pool)
  {
    hide Ordered, Accounted, Counted;
    var x' := x.(queue := x.queue + [it]);
    assert Inside(x') == Inside(x) + [it];
    QueuedCounted(x, pool, h.others, it, o);
    AcceptedOrdered(x, x', h, it, o);
    AcceptedAccounted(cfg, x, x', h, it, o);
  }

  // ----------------------------------------------------------------- other holders

  /** The transmitter's own references to a buffer. */
  function Own(x: Xmit, id: nat): nat {
    if x.current.Some? && x.current.value.id == id then 1 else 0
  }

  ghost predicate IsInside(x: Xmit, id: nat) {
    exists i :: 0 <= i < |Inside(x)| && Inside(x)[i].id == id
  }

  /** Other holders of a buffer take and drop references; of a buffer inside the transmitter they keep at least one. */
  lemma HoldersAgree(cfg: Config, x: Xmit, h: History, pool: Pool, id: nat, n: nat, ours: bool)
    requires Agrees(cfg, x, h, pool) && (IsInside(x, id) ==> n >= 1)
    ensures Agrees(cfg, x, h.(others := h.others[id := Holding(n, ours)]), pool[id := Counter(n + Own(x, id), false, ours)])
  {
    hide Settled, Deserved, With, Concat;
    if x.current.Some? { assert Inside(x)[0] == x.current.value; }
    forall i | 0 <= i < |x.queue| ensures x.queue[i].id == id ==> n >= 1 {
      assert Inside(x)[|Cur(x)| + i] == x.queue[i];
    }
  }

  /** A list without its element i. */
  function Cut(s: seq<Item>, i: nat): (r: seq<Item>)
    requires i < |s|
  {
    s[..i] + s[i + 1..]
  }

  /** The history after the owner of queued buffer i took it back. */
  function Withdrawn(x: Xmit, h: History, i: nat): History
    requires i < |x.queue| <= |h.accepted|
  {
    h.(accepted := Cut(h.accepted, |h.accepted| - |x.queue| + i), withdrawn := h.withdrawn + [x.queue[i]])
  }

  lemma CutCounted(x: Xmit, pool: Pool, others: Holders, i: nat)
    requires Counted(x, pool, others) && i < |x.queue|
    ensures Counted(x.(queue := Cut(x.queue, i)), pool, others) && !IsInside(x.(queue := Cut(x.queue, i)), x.queue[i].id)
  {
    var q := Cut(x.queue, i);
    assert forall j :: 0 <= j < |q| ==> q[j] == x.queue[if j < i then j else j + 1];
  }

  lemma CutMultiset(s: seq<Item>, i: nat)
    requires i < |s|
    ensures multiset(s) == multiset(Cut(s, i)) + multiset{s[i]}
  {
    assert s == s[..i] + [s[i]] + s[i + 1..];
  }

  lemma CutInside(x: Xmit, i: nat)
    requires i < |x.queue|
    ensures var j := |Cur(x)| + i;
            j < |Inside(x)| && Inside(x.(queue := Cut(x.queue, i))) == Cut(Inside(x), j) && Inside(x)[j] == x.queue[i]
  {}

  lemma WithdrawnOrdered(x: Xmit, h: History, i: nat)
    requires Ordered(x, h) && x.state != Dead && i < |x.queue|
    ensures |x.queue| <= |h.accepted| && h.accepted[|h.accepted| - |x.queue| + i] == x.queue[i]
    ensures Ordered(x.(queue := Cut(x.queue, i)), Withdrawn(x, h, i))
  {
    hide Concat;
    CutInside(x, i);
    assert h.accepted == h.sent + Inside(x);
    assert Cut(h.accepted, |h.accepted| - |x.queue| + i) == h.sent + Cut(Inside(x), |Cur(x)| + i);
  }

  lemma Cancel(a: multiset<Item>, b: multiset<Item>, c: multiset<Item>)
    requires a + c == b + c
    ensures a == b
  {
    forall x ensures a[x] == b[x] {
      assert (a + c)[x] == (b + c)[x];
    }
  }

  lemma WithdrawnAccounted(cfg: Config, x: Xmit, h: History, i: nat)
    requires Accounted(cfg, x, h) && i < |x.queue| <= |h.accepted| && h.accepted[|h.accepted| - |x.queue| + i] == x.queue[i]
    ensures Accounted(cfg, x.(queue := Cut(x.queue, i)), Withdrawn(x, h, i))
  {
    hide Deserved, Settled, With, Cut, Inside;
    CutInside(x, i);
    assert |Cur(x)| + i < |Inside(x)|;
    var j, k := |h.accepted| - |x.queue| + i, |Cur(x)| + i;
    CutMultiset(h.accepted, j);
    CutMultiset(Inside(x), k);
    var settled, rest, kept, one := multiset(Settled(h.fates)), multiset(Cut(Inside(x), k)), multiset(Cut(h.accepted, j)), multiset{x.queue[i]};
    assert settled + rest + one == kept + one;
    Cancel(settled + rest, kept, one);
  }

  /** No byte of a queued buffer is on the wire: without it the transmitter is as if it had never been submitted. */
  lemma WithdrawnAgrees(cfg: Config, x: Xmit, h: History, pool: Pool, i: nat)
    requires Agrees(cfg, x, h, pool) && i < |x.queue|
    ensures |x.queue| <= |h.accepted| && Agrees(cfg, x.(queue := Cut(x.queue, i)), Withdrawn(x, h, i), pool)
    ensures !IsInside(x.(queue := Cut(x.queue, i)), x.queue[i].id) && HeldBy(pool, h.others, x.queue[i].id, 0)
  {
    hide Ordered, Accounted, Cut, IsInside;
    CutCounted(x, pool, h.others, i);
    WithdrawnOrdered(x, h, i);
    WithdrawnAccounted(cfg, x, h, i);
    CutIsEmpty(x.queue, i);
  }

  lemma CutIsEmpty(s: seq<Item>, i: nat)
    requires i < |s|
    ensures |Cut(s, i)| == |s| - 1
  {}

  /** What happens to a buffer that is not inside is no concern of the transmitter's. */
  lemma ElsewhereAgrees(cfg: Config, x: Xmit, h: History, pool: Pool, id: nat, c: Counter)
    requires Agrees(cfg, x, h, pool) && !IsInside(x, id)
    ensures Agrees(cfg, x, h, pool[id := c])
  {
    hide Settled, Deserved, With, Concat;
    if x.current.Some? { assert Inside(x)[0] == x.current.value; }
    forall i | 0 <= i < |x.queue| ensures x.queue[i].id != id {
      assert Inside(x)[|Cur(x)| + i] == x.queue[i];
    }
  }

  // ---------------------------------------------------------------- disconnection

  /**
    While the connection is being torn down, `hand` is the failed buffer that is
    given back to the application at the end.
   */
  ghost predicate Dying(cfg: Config, x: Xmit, h: History, pool: Pool, hand: seq<Item>) {
    && Counted(x, pool, h.others)
    && h.totalBytes == |h.wire| && h.wire <= Concat(h.accepted) && h.sent <= h.accepted && Concat(h.sent) <= h.wire
    && multiset(Settled(h.fates)) + multiset(Inside(x)) + multiset(hand) == multiset(h.accepted)
    && With(h.fates, Transmitted) == h.sent
    && forall i :: 0 <= i < |h.fates| ==> Deserved(cfg, h.fates[i])
  }

  lemma OrderedIsPrefix(x: Xmit, h: History)
    requires Ordered(x, h)
    ensures h.wire <= Concat(h.accepted) && h.sent <= h.accepted && Concat(h.sent) <= h.wire
  {
    if x.state != Dead {
      hide Concat;
      ConcatAppend(h.sent, Inside(x));
      WrittenIsPrefix(x);
    }
  }

  lemma WrittenIsPrefix(x: Xmit)
    ensures Written(x) <= Concat(Inside(x))
  {
    if x.current.Some? {
      assert Inside(x) == [x.current.value] + x.queue;
      assert Inside(x)[1..] == x.queue;
    }
  }

  lemma AliveIsDying(cfg: Config, x: Xmit, h: History, pool: Pool)
    requires Agrees(cfg, x, h, pool)
    ensures Dying(cfg, x, h, pool, [])
  {
    hide Concat, Settled, Deserved, With, Counted, Inside;
    OrderedIsPrefix(x, h);
    assert multiset(Inside(x)) + multiset([]) == multiset(Inside(x));
  }

  /** The current submission is settled, or taken in hand. */
  lemma CurrentSettled(cfg: Config, x: Xmit, h: History, pool: Pool, e: Settlement)
    requires Dying(cfg, x, h, pool, []) && x.current.Some? && e.item == x.current.value && Deserved(cfg, e) && e.cause != Transmitted
    ensures e.item.id in pool && pool[e.item.id].inuse >= 1
    ensures Dying(cfg, x.(current := None), h.(fates := h.fates + [e]), AfterFate(Dropped(pool, e.item.id), e.item.id, e.fate), [])
  {
    hide Settled, Concat, Deserved, With;
    var id, x' := e.item.id, x.(current := None);
    FateKeepsQueue(x.queue, pool, h.others, id, Dropped(pool, id)[id]);
    FateKeepsQueue(x.queue, Dropped(pool, id), h.others, id, Counter(0, true, false));
    assert Inside(x) == [e.item] + Inside(x');
    SettledMore(h.fates, e);
    WithSnoc(h.fates, e, Transmitted);
    ConsMultiset(e.item, Inside(x), Inside(x'));
  }

  lemma CurrentInHand(cfg: Config, x: Xmit, h: History, pool: Pool)
    requires Dying(cfg, x, h, pool, []) && x.current.Some?
    ensures x.current.value.id in pool && pool[x.current.value.id].inuse >= 1
    ensures Dying(cfg, x.(current := None), h, Dropped(pool, x.current.value.id), [x.current.value])
  {
    hide Settled, Concat, Deserved, With;
    var it, x' := x.current.value, x.(current := None);
    FateKeepsQueue(x.queue, pool, h.others, it.id, Dropped(pool, it.id)[it.id]);
    assert Inside(x) == [it] + Inside(x');
    ConsMultiset(it, Inside(x), Inside(x'));
  }

  lemma QueueTailCounted(x: Xmit, pool: Pool, others: Holders, f: Fate)
    requires Counted(x, pool, others) && x.current.None? && x.queue != []
    ensures Counted(x.(queue := x.queue[1..]), AfterFate(pool, x.queue[0].id, f), others)
  {
    FateKeepsQueue(x.queue[1..], pool, others, x.queue[0].id, Counter(0, true, false));
  }

  /** The first queued submission is settled. */
  lemma QueueHeadSettled(cfg: Config, x: Xmit, h: History, pool: Pool, hand: seq<Item>, e: Settlement)
    requires Dying(cfg, x, h, pool, hand) && x.current.None? && x.queue != [] && e.item == x.queue[0] && Deserved(cfg, e) && e.cause != Transmitted
    ensures Dying(cfg, x.(queue := x.queue[1..]), h.(fates := h.fates + [e]), AfterFate(pool, e.item.id, e.fate), hand)
  {
    hide Settled, Concat, Deserved, With, Counted;
    var x' := x.(queue := x.queue[1..]);
    QueueTailCounted(x, pool, h.others, e.fate);
    assert Inside(x) == [e.item] + Inside(x');
    SettledMore(h.fates, e);
    WithSnoc(h.fates, e, Transmitted);
    ConsMultiset(e.item, Inside(x), Inside(x'));
  }

  /** The failed buffer is handed back at the very end. */
  lemma HandBack(cfg: Config, x: Xmit, h: History, pool: Pool, e: Settlement)
    requires Dying(cfg, x, h, pool, [e.item]) && Deserved(cfg, e) && e.cause != Transmitted
    ensures Dying(cfg, x, h.(fates := h.fates + [e]), pool, [])
  {
    hide Settled, Concat, Deserved, With;
    SettledMore(h.fates, e);
    WithSnoc(h.fates, e, Transmitted);
  }

  lemma DyingIsDead(cfg: Config, x: Xmit, h: History, pool: Pool)
    requires Dying(cfg, x, h, pool, []) && x.state == Dead && x.current.None? && x.queue == [] && !x.congestedFlag
    ensures Agrees(cfg, x, h, pool)
  {}

  // ------------------------------------------------------ what a run does to the pool

  /** The buffers inside. */
  ghost function Ids(x: Xmit): set<nat> {
    set it | it in Inside(x) :: it.id
  }

  /** A buffer as it is after its fate: back in its pool, or with the references of its other holders. */
  function Remains(e: Settlement): Counter {
    if e.fate == Freed then Counter(0, true, false) else Counter(e.inuse, false, e.ours)
  }

  /**
    From one moment to a later one, the transmitter touched no buffer that was not inside; those
    that it settled are out, freed if that was their fate and otherwise as their holders left them.
   */
  ghost predicate Settles(x: Xmit, pool: Pool, fates: seq<Settlement>, x': Xmit, pool': Pool, fates': seq<Settlement>) {
    && Ids(x') <= Ids(x) && pool'.Keys == pool.Keys && fates <= fates'
    && (forall id :: id in pool && id !in Ids(x) ==> pool'[id] == pool[id])
    && (forall i :: |fates| <= i < |fates'| ==>
          var id := fates'[i].item.id; id in Ids(x) - Ids(x') && id in pool' && pool'[id] == Remains(fates'[i]))
  }

  lemma SameInside(x: Xmit, p: Pool, f: seq<Settlement>, x': Xmit)
    requires x'.current == x.current && x'.queue == x.queue
    ensures Settles(x, p, f, x', p, f)
  {}

  lemma SettlesThen(x: Xmit, p: Pool, f: seq<Settlement>, x1: Xmit, p1: Pool, f1: seq<Settlement>, x2: Xmit, p2: Pool, f2: seq<Settlement>)
    requires Settles(x, p, f, x1, p1, f1) && Settles(x1, p1, f1, x2, p2, f2)
    ensures Settles(x, p, f, x2, p2, f2)
  {
    hide Ids, Remains;
  }

  /** Nothing was settled. */
  lemma SettlesNothing(x: Xmit, p: Pool, f: seq<Settlement>, x': Xmit, p': Pool)
    requires Inside(x') == Inside(x) && p'.Keys == p.Keys
    requires forall id :: id in p && id !in Ids(x) ==> p'[id] == p[id]
    ensures Settles(x, p, f, x', p', f)
  {}

  /** The first submission inside was settled. */
  lemma SettlesOne(x: Xmit, p: Pool, f: seq<Settlement>, x': Xmit, e: Settlement)
    requires Inside(x) == [e.item] + Inside(x') && (forall it :: it in Inside(x') ==> it.id != e.item.id)
    requires e.item.id in p
    ensures Settles(x, p, f, x', p[e.item.id := Remains(e)], f + [e])
  {}

  /** No other submission inside is of the same buffer. */
  lemma CurrentIsAlone(x: Xmit, x': Xmit, pool: Pool, others: Holders)
    requires Counted(x, pool, others) && x.current.Some? && x'.current.None? && x'.queue == x.queue
    ensures Inside(x) == [x.current.value] + Inside(x')
    ensures forall e :: e in Inside(x') ==> e.id != x.current.value.id
    ensures HeldBy(pool, others, x.current.value.id, 1)
  {
    hide QueueCounted, HeldBy;
    assert Inside(x') == x.queue;
  }

  lemma HeadIsAlone(x: Xmit, pool: Pool, others: Holders)
    requires Counted(x, pool, others) && x.current.None? && x.queue != []
    ensures Inside(x) == [x.queue[0]] + Inside(x.(queue := x.queue[1..]))
    ensures forall e :: e in Inside(x.(queue := x.queue[1..])) ==> e.id != x.queue[0].id
    ensures HeldBy(pool, others, x.queue[0].id, 0)
  {
    hide HeldBy;
    var q := x.queue;
    assert Inside(x.(queue := q[1..])) == q[1..];
    forall e | e in q[1..] ensures e.id != q[0].id {
      var i :| 0 <= i < |q[1..]| && q[1..][i] == e;
      assert q[i + 1] == e;
    }
  }

  /** The current submission was settled, with one reference given up. */
  lemma SettlesCurrent(x: Xmit, pool: Pool, others: Holders, f: seq<Settlement>, x': Xmit, e: Settlement)
    requires Counted(x, pool, others) && x.current == Some(e.item) && x'.current.None? && x'.queue == x.queue
    requires e.item.id in pool && e.inuse == pool[e.item.id].inuse - 1 && e.ours == pool[e.item.id].ours
    ensures Settles(x, pool, f, x', AfterFate(Dropped(pool, e.item.id), e.item.id, e.fate), f + [e])
  {
    hide Settles, Counted, Inside;
    CurrentIsAlone(x, x', pool, others);
    SettlesOne(x, pool, f, x', e);
    assert AfterFate(Dropped(pool, e.item.id), e.item.id, e.fate) == pool[e.item.id := Remains(e)];
  }

  /** The first queued submission was settled; the transmitter had no reference to it. */
  lemma SettlesHead(x: Xmit, pool: Pool, others: Holders, f: seq<Settlement>, e: Settlement)
    requires Counted(x, pool, others) && x.current.None? && x.queue != [] && x.queue[0] == e.item
    requires e.item.id in pool && e.inuse == pool[e.item.id].inuse && e.ours == pool[e.item.id].ours
    ensures Settles(x, pool, f, x.(queue := x.queue[1..]), AfterFate(pool, e.item.id, e.fate), f + [e])
  {
    hide Settles, Counted, Inside;
    var x' := x.(queue := x.queue[1..]);
    HeadIsAlone(x, pool, others);
    SettlesOne(x, pool, f, x', e);
    assert AfterFate(pool, e.item.id, e.fate) == pool[e.item.id := Remains(e)];
  }

  /** A submission that was out already when the others were settled is settled last. */
  lemma SettlesLast(x: Xmit, p: Pool, f: seq<Settlement>, x1: Xmit, e: Settlement, x2: Xmit, p2: Pool, f2: seq<Settlement>)
    requires Ids(x) == Ids(x1) + {e.item.id} && e.item.id !in Ids(x1) && e.item.id in p
    requires Settles(x1, p[e.item.id := Remains(e)], f, x2, p2, f2)
    ensures Settles(x, p, f, x2, p2, f2 + [e])
  {
    hide Ids, Remains;
  }

  lemma SettlesInHand(x: Xmit, pool: Pool, others: Holders, f: seq<Settlement>, x1: Xmit, e: Settlement,
                      x2: Xmit, pool2: Pool, f2: seq<Settlement>)
    requires Counted(x, pool, others) && x.current == Some(e.item) && x1.current.None? && x1.queue == x.queue
    requires e.item.id in pool && e.inuse == pool[e.item.id].inuse - 1 && e.ours == pool[e.item.id].ours && e.fate != Freed
    requires Settles(x1, Dropped(pool, e.item.id), f, x2, pool2, f2)
    ensures Settles(x, pool, f, x2, pool2, f2 + [e])
  {
    hide Settles, Counted, Inside;
    CurrentIsAlone(x, x1, pool, others);
    assert Dropped(pool, e.item.id) == pool[e.item.id := Remains(e)];
    SettlesLast(x, pool, f, x1, e, x2, pool2, f2);
  }

  /** The submissions that left for one cause since an earlier moment. */
  ghost function Since(f: seq<Settlement>, f': seq<Settlement>, c: Cause): seq<Item> {
    if With(f, c) <= With(f', c) then With(f', c)[|With(f, c)|..] else []
  }

  /** No submission overtakes another: those inside leave in order, first the sent ones, then the failed one, then the rest. */
  ghost predicate LeftInOrder(x: Xmit, f: seq<Settlement>, x': Xmit, f': seq<Settlement>) {
    && With(f, Transmitted) <= With(f', Transmitted) && With(f, CutOff) <= With(f', CutOff)
    && With(f, Failed) <= With(f', Failed) && With(f, NeverStarted) <= With(f', NeverStarted)
    && Inside(x) == Since(f, f', Transmitted) + Since(f, f', CutOff) + Since(f, f', Failed) + Since(f, f', NeverStarted) + Inside(x')
  }

  /** What left, cause by cause. */
  ghost predicate Leave(f: seq<Settlement>, f': seq<Settlement>, sent: seq<Item>, cutOff: seq<Item>, failed: seq<Item>, left: seq<Item>) {
    && With(f', Transmitted) == With(f, Transmitted) + sent && With(f', CutOff) == With(f, CutOff) + cutOff
    && With(f', Failed) == With(f, Failed) + failed && With(f', NeverStarted) == With(f, NeverStarted) + left
  }

  lemma LeaveNothing(f: seq<Settlement>)
    ensures Leave(f, f, [], [], [], [])
  {}

  lemma LeaveOne(f: seq<Settlement>, e: Settlement)
    ensures e.cause == Transmitted ==> Leave(f, f + [e], [e.item], [], [], [])
    ensures e.cause == CutOff ==> Leave(f, f + [e], [], [e.item], [], [])
    ensures e.cause == Failed ==> Leave(f, f + [e], [], [], [e.item], [])
    ensures e.cause == NeverStarted ==> Leave(f, f + [e], [], [], [], [e.item])
  {
    WithSnoc(f, e, Transmitted);
    WithSnoc(f, e, CutOff);
    WithSnoc(f, e, Failed);
    WithSnoc(f, e, NeverStarted);
  }

  /** The queue left after the submission that was current. */
  lemma LeaveQueue(f: seq<Settlement>, f1: seq<Settlement>, f2: seq<Settlement>, cutOff: seq<Item>, failed: seq<Item>, q: seq<Item>)
    requires Leave(f, f1, [], cutOff, failed, []) && Leave(f1, f2, [], [], [], q)
    ensures Leave(f, f2, [], cutOff, failed, q)
  {
    hide With;
  }

  /** One more submission left, after part of the queue. */
  lemma LeaveNext(f: seq<Settlement>, f1: seq<Settlement>, e: Settlement, q: seq<Item>)
    requires Leave(f, f1, [], [], [], q)
    ensures e.cause == Failed ==> Leave(f, f1 + [e], [], [], [e.item], q)
    ensures e.cause == NeverStarted ==> Leave(f, f1 + [e], [], [], [], q + [e.item])
  {
    LeaveOne(f1, e);
    hide With;
  }

  /** What one call of send() does: a complete one lets the current submission go, a failed one everything. */
  ghost predicate OneSend(x: Xmit, f: seq<Settlement>, x': Xmit, f': seq<Settlement>) {
    var sent, failed := if x'.state == CheckQueue then Cur(x) else [], if x'.state == Dead then Cur(x) else [];
    var left := if x'.state == Dead then x.queue else [];
    Leave(f, f', sent, [], failed, left) && Inside(x) == sent + failed + left + Inside(x')
  }

  lemma OneSendCases(x: Xmit, f: seq<Settlement>, x': Xmit, f': seq<Settlement>)
    requires
      match x'.state
      case CheckQueue => Leave(f, f', Cur(x), [], [], []) && x'.current.None? && x'.queue == x.queue
      case Dead => Leave(f, f', [], [], Cur(x), x.queue) && x'.current.None? && x'.queue == []
      case _ => f' == f && x'.current == x.current && x'.queue == x.queue
    ensures OneSend(x, f, x', f')
  {
    hide With;
  }

  /** The connection was up all the time: nothing left but what was sent. */
  ghost predicate OnlySent(x: Xmit, f: seq<Settlement>, x': Xmit, f': seq<Settlement>) {
    && Leave(f, f', Since(f, f', Transmitted), [], [], [])
    && Inside(x) == Since(f, f', Transmitted) + Inside(x')
  }

  lemma OnlySentInOrder(x: Xmit, f: seq<Settlement>, x': Xmit, f': seq<Settlement>)
    requires OnlySent(x, f, x', f')
    ensures LeftInOrder(x, f, x', f') && Since(f, f', CutOff) == [] && Since(f, f', Failed) == []
  {
    hide With;
  }

  lemma SinceIs(f: seq<Settlement>, f': seq<Settlement>, c: Cause, items: seq<Item>)
    requires With(f', c) == With(f, c) + items
    ensures With(f, c) <= With(f', c) && Since(f, f', c) == items
  {
    hide With;
  }

  lemma SinceAll(f: seq<Settlement>, f': seq<Settlement>, sent: seq<Item>, failed: seq<Item>, left: seq<Item>, x: Xmit, x': Xmit)
    requires Leave(f, f', sent, [], failed, left) && Inside(x) == sent + failed + left + Inside(x')
    ensures Since(f, f', Transmitted) == sent && Since(f, f', CutOff) == [] && Since(f, f', Failed) == failed
    ensures LeftInOrder(x, f, x', f')
  {
    hide With, Since, Inside;
    SinceIs(f, f', Transmitted, sent);
    SinceIs(f, f', CutOff, []);
    SinceIs(f, f', Failed, failed);
    SinceIs(f, f', NeverStarted, left);
    assert sent + [] == sent;
  }

  lemma LeaveMore(f: seq<Settlement>, f1: seq<Settlement>, f2: seq<Settlement>, before: seq<Item>, sent: seq<Item>, failed: seq<Item>, left: seq<Item>)
    requires Leave(f, f1, before, [], [], []) && Leave(f1, f2, sent, [], failed, left)
    ensures Leave(f, f2, before + sent, [], failed, left)
  {
    hide With;
    assert With(f, Transmitted) + before + sent == With(f, Transmitted) + (before + sent);
  }

  lemma OneMoreSend(x: Xmit, f: seq<Settlement>, x1: Xmit, f1: seq<Settlement>, x2: Xmit, f2: seq<Settlement>)
    requires OnlySent(x, f, x1, f1) && OneSend(x1, f1, x2, f2)
    ensures x2.state != Dead ==> OnlySent(x, f, x2, f2)
    ensures LeftInOrder(x, f, x2, f2) && Since(f, f2, CutOff) == []
    ensures Since(f, f2, Failed) == if x2.state == Dead then Cur(x1) else []
  {
    hide Inside, Cur, Since, Leave, LeftInOrder;
    var sent, failed := if x2.state == CheckQueue then Cur(x1) else [], if x2.state == Dead then Cur(x1) else [];
    var left := if x2.state == Dead then x1.queue else [];
    var before := Since(f, f1, Transmitted);
    LeaveMore(f, f1, f2, before, sent, failed, left);
    assert Inside(x) == before + sent + failed + left + Inside(x2);
    SinceAll(f, f2, before + sent, failed, left, x, x2);
  }

  lemma AtFirst(x: Xmit, pool: Pool, h: History)
    ensures Ran(x, pool, h, x, pool, h, 0) && OnlySent(x, h.fates, x, h.fates)
  {
    hide With;
  }

  /** The state changed and the submissions inside did not. */
  lemma QueueThen(x: Xmit, p: Pool, h: History, x1: Xmit, p1: Pool, h1: History, x2: Xmit, p2: Pool, failed: int)
    requires Ran(x, p, h, x1, p1, h1, failed) && OnlySent(x, h.fates, x1, h1.fates)
    requires Inside(x2) == Inside(x1) && Settles(x1, p1, h1.fates, x2, p2, h1.fates)
    ensures Ran(x, p, h, x2, p2, h1, failed) && OnlySent(x, h.fates, x2, h1.fates)
  {
    hide With, Settles, DecidedNow;
    SettlesThen(x, p, h.fates, x1, p1, h1.fates, x2, p2, h1.fates);
    OnlySentInOrder(x, h.fates, x2, h1.fates);
  }

  lemma SameSubmissions(x: Xmit, p: Pool, h: History, x1: Xmit, p1: Pool, h1: History, x2: Xmit, failed: int)
    requires Ran(x, p, h, x1, p1, h1, failed) && OnlySent(x, h.fates, x1, h1.fates) && x2.current == x1.current && x2.queue == x1.queue
    ensures Ran(x, p, h, x2, p1, h1, failed) && OnlySent(x, h.fates, x2, h1.fates)
  {
    hide With, Settles, Ran, OnlySent;
    SettlesNothing(x1, p1, h1.fates, x2, p1);
    QueueThen(x, p, h, x1, p1, h1, x2, p1, failed);
  }

  lemma SendThen(x: Xmit, p: Pool, h: History, x1: Xmit, p1: Pool, h1: History, x2: Xmit, p2: Pool, h2: History)
    requires Ran(x, p, h, x1, p1, h1, 0) && OnlySent(x, h.fates, x1, h1.fates) && x1.current.Some?
    requires h2.accepted == h1.accepted && h1.sent <= h2.sent
    requires DecidedNow(h1, h2) && Settles(x1, p1, h1.fates, x2, p2, h2.fates) && OneSend(x1, h1.fates, x2, h2.fates)
    ensures Ran(x, p, h, x2, p2, h2, if x2.state == Dead then 1 else 0)
    ensures x2.state != Dead ==> OnlySent(x, h.fates, x2, h2.fates)
  {
    hide With, Settles, DecidedNow, OnlySent, OneSend, LeftInOrder, Since;
    DecidedThen(h, h1, h2);
    SettlesThen(x, p, h.fates, x1, p1, h1.fates, x2, p2, h2.fates);
    OneMoreSend(x, h.fates, x1, h1.fates, x2, h2.fates);
  }

  /** One more submission, behind all the others. */
  function Queued(x: Xmit, it: Item): Xmit {
    x.(queue := x.queue + [it])
  }

  /** A submission that starts at once is one that was queued with nothing before it. */
  lemma StartedThen(x: Xmit, p: Pool, it: Item, x1: Xmit, p1: Pool, h: History, x2: Xmit, p2: Pool, h2: History, failed: int)
    requires x.current.None? && x.queue == [] && x1.current == Some(it) && x1.queue == []
    requires it.id in p && p1.Keys == p.Keys && forall id :: id in p && id != it.id ==> p1[id] == p[id]
    requires Ran(x1, p1, h, x2, p2, h2, failed)
    ensures Ran(Queued(x, it), p, h, x2, p2, h2, failed)
  {
    hide Settles, Since, With, DecidedNow;
    assert Inside(Queued(x, it)) == Inside(x1) == [it];
    assert it in Inside(x1);
    SettlesNothing(Queued(x, it), p, h.fates, x1, p1);
    SettlesThen(Queued(x, it), p, h.fates, x1, p1, h.fates, x2, p2, h2.fates);
  }

  /**
    A run of the state machine with `failed` failed sends: nothing new was accepted, the fates went
    by the counts of the time, the pool follows them, and the submissions left in order.
   */
  ghost predicate Ran(x: Xmit, p: Pool, h: History, x': Xmit, p': Pool, h': History, failed: int) {
    && h'.accepted == h.accepted && h.sent <= h'.sent
    && DecidedNow(h, h') && Settles(x, p, h.fates, x', p', h'.fates)
    && LeftInOrder(x, h.fates, x', h'.fates)
    && Since(h.fates, h'.fates, CutOff) == [] && |Since(h.fates, h'.fates, Failed)| == failed
  }

  lemma DecidedNothing(h: History)
    ensures DecidedNow(h, h)
  {}

  lemma DecidedOne(h: History, e: Settlement)
    requires e.item.id in h.others && h.others[e.item.id] == Holding(e.inuse, e.ours)
    ensures DecidedNow(h, h.(fates := h.fates + [e]))
  {}

  lemma DecidedThen(h: History, h1: History, h2: History)
    requires DecidedNow(h, h1) && DecidedNow(h1, h2)
    ensures DecidedNow(h, h2)
  {}

  // ------------------------------------------------------------- facts and small steps

  lemma StateFacts(x: Xmit)
    requires Shape(x)
    ensures x.state == InProgress || x.state == Congested ==> x.current.Some?
    ensures x.state == Ready && x.current.None? ==> x.queue == []
    ensures x.state == CheckQueue ==> x.current.None?
  {}

  lemma CountedFact(cfg: Config, x: Xmit, h: History, pool: Pool)
    requires Agrees(cfg, x, h, pool)
    ensures Counted(x, pool, h.others) && With(h.fates, Transmitted) == h.sent
  {}

  lemma DyingCounted(cfg: Config, x: Xmit, h: History, pool: Pool, hand: seq<Item>)
    requires Dying(cfg, x, h, pool, hand)
    ensures Counted(x, pool, h.others)
  {}

  lemma AgreesFacts(cfg: Config, x: Xmit, h: History, pool: Pool)
    requires Agrees(cfg, x, h, pool)
    ensures Shape(x)
    ensures x.current.Some? ==> HeldBy(pool, h.others, x.current.value.id, 1)
    ensures x.queue != [] ==> HeldBy(pool, h.others, x.queue[0].id, 0)
  {}

  lemma DyingFacts(cfg: Config, x: Xmit, h: History, pool: Pool, hand: seq<Item>)
    requires Dying(cfg, x, h, pool, hand)
    ensures x.current.Some? ==> HeldBy(pool, h.others, x.current.value.id, 1)
    ensures x.queue != [] ==> HeldBy(pool, h.others, x.queue[0].id, 0)
  {}

  lemma DyingFlags(cfg: Config, x: Xmit, h: History, pool: Pool, hand: seq<Item>)
    requires Dying(cfg, x, h, pool, hand)
    ensures Dying(cfg, x.(state := Dead, congestedFlag := false), h, pool, hand)
    ensures Dying(cfg, x.(state := Dead), h, pool, hand)
  {
    hide Concat, Settled, Deserved, With, QueueCounted;
    assert Inside(x.(state := Dead, congestedFlag := false)) == Inside(x);
    assert Inside(x.(state := Dead)) == Inside(x);
  }

  /** Start, or resume, the transmission of the current buffer. */
  function Begun(x: Xmit): Xmit
    requires x.current.Some?
  {
    if x.state == Ready then x.(nbWrite := 0, nb2Write := |x.current.value.payload|, state := InProgress)
    else x.(congestedFlag := false, state := InProgress)
  }

  lemma BegunAgrees(cfg: Config, x: Xmit, h: History, pool: Pool)
    requires Agrees(cfg, x, h, pool) && x.current.Some? && (x.state == Ready || x.state == Congested)
    ensures Agrees(cfg, Begun(x), h, pool)
  {
    hide Concat, Settled, Deserved, With, QueueCounted;
    assert Inside(Begun(x)) == Inside(x);
    assert Written(Begun(x)) == Written(x);
  }

  lemma StalledAgrees(cfg: Config, x: Xmit, h: History, pool: Pool)
    requires Agrees(cfg, x, h, pool) && x.state == InProgress
    ensures Agrees(cfg, x.(congestedFlag := true, state := Congested), h, pool)
  {
    hide Concat, Settled, Deserved, With, QueueCounted;
    assert Inside(x.(congestedFlag := true, state := Congested)) == Inside(x);
  }

  lemma DrainedAgrees(cfg: Config, x: Xmit, h: History, pool: Pool)
    requires Agrees(cfg, x, h, pool) && x.state == CheckQueue && x.queue == []
    ensures Agrees(cfg, x.(state := Ready), h, pool)
  {
    hide Concat, Settled, Deserved, With, QueueCounted;
    assert Inside(x.(state := Ready)) == Inside(x);
  }

  /** Between two calls: idle with nothing to send, congested, dead or not connected yet. */
  predicate Resting(x: Xmit) {
    match x.state
    case Ready => x.current.None? && x.queue == []
    case InProgress => false
    case CheckQueue => false
    case Unborn => true
    case Congested => true
    case Dead => true
  }

  // ---------------------------------------------------------------- the transmitter

  datatype SendStatus = Complete | Partial | WouldBlock | Disconnected

  function Rank(s: State): nat {
    match s
    case CheckQueue => 3
    case Ready => 2
    case Congested => 1
    case InProgress => 0
    case Unborn => 0
    case Dead => 0
  }

  /** Bytes that the current submission still has to send. */
  function Left(x: Xmit): nat {
    if x.current.None? then 0
    else if x.state == Ready then |x.current.value.payload|
    else if x.nbWrite <= |x.current.value.payload| then |x.current.value.payload| - x.nbWrite
    else 0
  }

  class Transmitter {
    const cfg: Config
    var xmit: Xmit
    var pool: Pool
    ghost var history: History
    ghost var failures: nat
    ghost var blocks: nat

    ghost predicate Valid()
      reads this
    {
      Agrees(cfg, xmit, history, pool)
    }

    /** A connected socket that has not sent anything yet. */
    constructor (c: Config, buffers: Pool)
      ensures Valid() && xmit.state == Ready && cfg == c && pool == buffers
      ensures history == History([], [], [], [], 0, map[], []) && failures == 0 && blocks == 0
    {
      cfg, pool, failures, blocks := c, buffers, 0, 0;
      xmit := Xmit(Ready, None, 0, 0, [], false);
      history := History([], [], [], [], 0, map[], []);
    }

    /** send(): any outcome that the system allows for a buffer with `len` bytes left. */
    method SystemSend(len: nat) returns (status: SendStatus, n: nat)
      modifies this`failures, this`blocks
      ensures status == Complete ==> 0 < n == len
      ensures status == Partial ==> 0 < n < len
      ensures status == WouldBlock || status == Disconnected ==> n == 0
      ensures failures == old(failures) + if status == Disconnected then 1 else 0
      ensures blocks == old(blocks) + if status == WouldBlock then 1 else 0
    {
      var ret: nat := *;
      n := 0;
      if 0 < ret <= len {
        n := ret;
        status := if ret == len then Complete else Partial;
      } else if ret > len {
        status := WouldBlock;
        blocks := blocks + 1;
      } else {
        status := Disconnected;
        failures := failures + 1;
      }
    }

    /**
      Decrement of a reference count.  It returns -1 for a buffer that is already
      free, and does not return at all when the count is 1 or less; neither is met.
     */
    method Decrement(id: nat) returns (inuse: int)
      requires id in pool && (pool[id].free || pool[id].inuse > 1)
      modifies this`pool
      ensures !old(pool)[id].free ==>
                inuse == old(pool)[id].inuse - 1 && pool == Dropped(old(pool), id)
      ensures old(pool)[id].free ==> inuse == -1 && pool == old(pool)
    {
      if pool[id].free {
        return -1;
      }
      inuse := pool[id].inuse - 1;
      pool := pool[id := pool[id].(inuse := inuse)];
    }

    method Increment(id: nat)
      requires id in pool && !pool[id].free
      modifies this`pool
      ensures pool == Raised(old(pool), id)
    {
      pool := pool[id := pool[id].(inuse := pool[id].inuse + 1)];
    }

    /** Free the buffer if that is its fate; a buffer with other users is never freed. */
    method Settle(id: nat, f: Fate)
      requires f == Freed ==> Has(pool, id, 1)
      modifies this`pool
      ensures pool == AfterFate(old(pool), id, f)
    {
      if f == Freed {
        pool := Free(pool, id);
      }
    }

    /** A complete send: release the buffer and look for the next one. */
    method Finish()
      requires Valid() && xmit.state == InProgress
      modifies this`xmit, this`pool, this`history
      ensures Valid() && xmit.state == CheckQueue && xmit.queue == old(xmit.queue) && xmit.current.None?
      ensures DecidedNow(old(history), history)
      ensures Settles(old(xmit), old(pool), old(history.fates), xmit, pool, history.fates)
      ensures Leave(old(history.fates), history.fates, Cur(old(xmit)), [], [], [])
      ensures history.accepted == old(history.accepted) && old(history.sent) <= history.sent
    {
      hide Agrees, Settles, With;
      AgreesFacts(cfg, xmit, history, pool);
      var it := xmit.current.value;
      var inuse := Decrement(it.id);
      assert inuse >= 0;
      var ours := pool[it.id].ours;
      var e := Settlement(it, Transmitted, FateOfCurrent(cfg, ours, inuse), inuse, ours);
      SentAllAgrees(cfg, xmit, history, old(pool), e);
      CountedFact(cfg, xmit, history, old(pool));
      SettlesCurrent(xmit, old(pool), history.others, history.fates, SentAll(xmit), e);
      LeaveOne(history.fates, e);
      Settle(it.id, e.fate);
      history := WithSent(history, e, it.payload[xmit.nbWrite..]);
      xmit := SentAll(xmit);
    }

    /** A partial send: account for the bytes and try again. */
    method Progress(n: nat)
      requires Valid() && xmit.state == InProgress && xmit.nbWrite + n <= xmit.nb2Write
      modifies this`xmit, this`history
      ensures Valid() && history.fates == old(history.fates) && xmit == old(xmit).(nbWrite := old(xmit.nbWrite) + n)
      ensures history.others == old(history.others)
      ensures history.accepted == old(history.accepted) && history.sent == old(history.sent)
    {
      hide Agrees;
      AgreesFacts(cfg, xmit, history, pool);
      SentSomeAgrees(cfg, xmit, history, pool, n);
      history := history.(wire := history.wire + xmit.current.value.payload[xmit.nbWrite..xmit.nbWrite + n],
                          totalBytes := history.totalBytes + n);
      xmit := xmit.(nbWrite := xmit.nbWrite + n);
    }

    /** XMIT_IN_PRG: one call of send(). */
    method StepSend() returns (stop: bool)
      requires Valid() && xmit.state == InProgress
      modifies this
      ensures Valid() && history.accepted == old(history.accepted) && old(history.sent) <= history.sent
      ensures DecidedNow(old(history), history)
      ensures Settles(old(xmit), old(pool), old(history.fates), xmit, pool, history.fates)
      ensures OneSend(old(xmit), old(history.fates), xmit, history.fates)
      ensures failures == old(failures) + if xmit.state == Dead then 1 else 0
      ensures blocks == old(blocks) + if xmit.state == Congested then 1 else 0
      ensures stop <==> xmit.state == Congested || xmit.state == Dead
      ensures !stop ==> xmit.queue == old(xmit.queue)
      ensures !stop ==> (xmit.state == CheckQueue && xmit.current.None?)
                        || (xmit.state == InProgress && xmit.current == old(xmit.current) && Left(xmit) < old(Left(xmit)))
    {
      hide Agrees, Settles, With, Ids, OneSend, Leave;
      AgreesFacts(cfg, xmit, history, pool);
      var status, n := SystemSend(xmit.nb2Write - xmit.nbWrite);
      stop := false;
      match status {
        case Complete =>
          Finish();
        case Partial =>
          Progress(n);
          SettlesNothing(old(xmit), pool, history.fates, xmit, pool);
        case WouldBlock =>
          StalledAgrees(cfg, xmit, history, pool);
          SettlesNothing(xmit, pool, history.fates, xmit.(congestedFlag := true, state := Congested), pool);
          xmit := xmit.(congestedFlag := true, state := Congested);
          stop := true;
        case Disconnected =>
          SendFailed();
          stop := true;
      }
      OneSendCases(old(xmit), old(history.fates), xmit, history.fates);
    }

    /** XMIT_CHECK_XMITQ: the next buffer of the queue, or nothing left to do. */
    method StepQueue() returns (stop: bool)
      requires Valid() && xmit.state == CheckQueue
      modifies this`xmit, this`pool
      ensures Valid() && history == old(history) && xmit.state == Ready && Inside(xmit) == Inside(old(xmit))
      ensures Settles(old(xmit), old(pool), history.fates, xmit, pool, history.fates)
      ensures stop <==> old(xmit.queue) == []
      ensures stop ==> xmit.current.None? && xmit.queue == []
      ensures !stop ==> |xmit.queue| < |old(xmit.queue)| && xmit.current.Some?
    {
      hide Agrees, Settles;
      AgreesFacts(cfg, xmit, history, pool);
      if xmit.queue == [] {
        SettlesNothing(xmit, pool, history.fates, xmit.(state := Ready), pool);
        DrainedAgrees(cfg, xmit, history, pool);
        xmit := xmit.(state := Ready);
        return true;
      }
      PoppedAgrees(cfg, xmit, history, pool);
      assert xmit.queue[0] in Inside(xmit);
      assert Inside(Popped(xmit)) == Inside(xmit);
      SettlesNothing(xmit, pool, history.fates, Popped(xmit), Raised(pool, xmit.queue[0].id));
      Increment(xmit.queue[0].id);
      xmit := Popped(xmit);
      return false;
    }

    /** The state machine: run until nothing is left to send, or the socket is congested or dead. */
    method RunFsm()
      requires Valid() && xmit.state != Unborn
      modifies this
      ensures Valid() && Resting(xmit) && xmit.state != Unborn
      ensures Ran(old(xmit), old(pool), old(history), xmit, pool, history, failures - old(failures))
      ensures failures == old(failures) + if xmit.state == Dead && old(xmit.state) != Dead then 1 else 0
      ensures blocks == old(blocks) + if xmit.state == Congested then 1 else 0
    {
      hide Agrees, DecidedNow, Settles, OneSend, OnlySent, Inside, Shape, Ran;
      var stop := false;
      AtFirst(xmit, pool, history);
      while !stop
        invariant Ran(old(xmit), old(pool), old(history), xmit, pool, history, failures - old(failures))
        invariant xmit.state == Dead && old(xmit.state) != Dead ==> stop
        invariant old(xmit.state) == Dead ==> xmit.state == Dead
        invariant !stop ==> OnlySent(old(xmit), old(history.fates), xmit, history.fates)
        invariant failures == old(failures) + if xmit.state == Dead && old(xmit.state) != Dead then 1 else 0
        invariant blocks == old(blocks) + if stop && xmit.state == Congested then 1 else 0
        invariant Valid() && xmit.state != Unborn && (stop ==> Resting(xmit))
        decreases !stop, |xmit.queue|, |Cur(xmit)|, Left(xmit), Rank(xmit.state)
      {
        AgreesFacts(cfg, xmit, history, pool);
        StateFacts(xmit);
        ghost var x, p, h := xmit, pool, history;
        match xmit.state {
          case Ready =>
            if xmit.current.None? {
              stop := true;
            } else {
              SameSubmissions(old(xmit), old(pool), old(history), xmit, pool, history, Begun(xmit), failures - old(failures));
              BegunAgrees(cfg, xmit, history, pool);
              xmit := Begun(xmit);
            }
          case InProgress =>
            stop := StepSend();
            SendThen(old(xmit), old(pool), old(history), x, p, h, xmit, pool, history);
          case CheckQueue =>
            stop := StepQueue();
            QueueThen(old(xmit), old(pool), old(history), x, p, h, xmit, pool, failures - old(failures));
          case Congested =>
            SameSubmissions(old(xmit), old(pool), old(history), xmit, pool, history, Begun(xmit), failures - old(failures));
            BegunAgrees(cfg, xmit, history, pool);
            xmit := Begun(xmit);
          case Dead =>
            stop := true;
        }
      }
    }

    /** The send failed: settle the current buffer, tear the connection down, tell the application. */
    method SendFailed()
      requires Valid() && xmit.state == InProgress
      modifies this`xmit, this`pool, this`history
      ensures Valid() && xmit.state == Dead && xmit.current.None? && xmit.queue == []
      ensures history.accepted == old(history.accepted) && history.sent == old(history.sent)
      ensures DecidedNow(old(history), history)
      ensures Settles(old(xmit), old(pool), old(history.fates), xmit, pool, history.fates)
      ensures Leave(old(history.fates), history.fates, [], [], Cur(old(xmit)), old(xmit.queue))
    {
      hide Dying, Agrees, Settles, Leave, Inside;
      AgreesFacts(cfg, xmit, history, pool);
      CountedFact(cfg, xmit, history, pool);
      AliveIsDying(cfg, xmit, history, pool);
      var it := xmit.current.value;
      var inuse := Decrement(it.id);
      assert inuse >= 0;
      var ours := pool[it.id].ours;
      var e := Settlement(it, Failed, FateOfFailed(cfg, ours, inuse), inuse, ours);
      ghost var fates := history.fates;
      if e.fate == DiscCallback {
        CurrentInHand(cfg, xmit, history, old(pool));
      } else {
        CurrentSettled(cfg, xmit, history, old(pool), e);
        SettlesCurrent(xmit, old(pool), history.others, fates, xmit.(current := None), e);
      }
      Settle(it.id, e.fate);
      xmit := xmit.(current := None);
      ghost var x, p := xmit, pool;
      if e.fate == DiscCallback {
        TearDown([it]);
        HandBack(cfg, xmit, history, pool, e);
        SettlesInHand(old(xmit), old(pool), history.others, fates, x, e, xmit, pool, history.fates);
        LeaveNext(fates, history.fates, e, old(xmit.queue));
        history := history.(fates := history.fates + [e]);
      } else {
        history := history.(fates := history.fates + [e]);
        TearDown([]);
        SettlesThen(old(xmit), old(pool), fates, x, p, fates + [e], xmit, pool, history.fates);
        LeaveOne(fates, e);
        LeaveQueue(fates, fates + [e], history.fates, [], [it], old(xmit.queue));
      }
      DyingIsDead(cfg, xmit, history, pool);
    }

    /** The end of the disconnection procedure: mark the socket dead and empty the queue. */
    method TearDown(ghost hand: seq<Item>)
      requires Dying(cfg, xmit, history, pool, hand) && xmit.current.None?
      modifies this`xmit, this`pool, this`history
      ensures Dying(cfg, xmit, history, pool, hand)
      ensures xmit.state == Dead && xmit.current.None? && xmit.queue == [] && !xmit.congestedFlag
      ensures history.accepted == old(history.accepted) && history.sent == old(history.sent)
      ensures DecidedNow(old(history), history)
      ensures Settles(old(xmit), old(pool), old(history.fates), xmit, pool, history.fates)
      ensures Leave(old(history.fates), history.fates, [], [], [], old(xmit.queue))
    {
      hide Dying, Settles, Leave, Inside;
      DyingFlags(cfg, xmit, history, pool, hand);
      xmit := xmit.(state := Dead, congestedFlag := false);
      ghost var n := 0;
      LeaveNothing(history.fates);
      SameInside(old(xmit), pool, history.fates, xmit);
      while xmit.queue != []
        invariant Dying(cfg, xmit, history, pool, hand)
        invariant xmit.state == Dead && xmit.current.None? && !xmit.congestedFlag
        invariant DecidedNow(old(history), history)
        invariant history.accepted == old(history.accepted) && history.sent == old(history.sent)
        invariant Settles(old(xmit), old(pool), old(history.fates), xmit, pool, history.fates)
        invariant n <= |old(xmit.queue)| && xmit.queue == old(xmit.queue)[n..]
        invariant Leave(old(history.fates), history.fates, [], [], [], old(xmit.queue)[..n])
        decreases |xmit.queue|
      {
        DyingFacts(cfg, xmit, history, pool, hand);
        DyingCounted(cfg, xmit, history, pool, hand);
        var it := xmit.queue[0];
        var e := Settlement(it, NeverStarted, FateOfQueued(cfg, pool[it.id].inuse), pool[it.id].inuse, pool[it.id].ours);
        QueueHeadSettled(cfg, xmit, history, pool, hand, e);
        SettlesHead(xmit, pool, history.others, history.fates, e);
        SettlesThen(old(xmit), old(pool), old(history.fates), xmit, pool, history.fates,
                    xmit.(queue := xmit.queue[1..]), AfterFate(pool, it.id, e.fate), history.fates + [e]);
        LeaveNext(old(history.fates), history.fates, e, old(xmit.queue)[..n]);
        Settle(it.id, e.fate);
        history := history.(fates := history.fates + [e]);
        xmit := xmit.(queue := xmit.queue[1..]);
        assert old(xmit.queue)[..n] + [it] == old(xmit.queue)[..n + 1];
        n := n + 1;
      }
      assert old(xmit.queue)[..n] == old(xmit.queue);
    }

    /** The transmitter's part of the disconnection procedure. */
    method Disconnect()
      requires Valid()
      modifies this`xmit, this`pool, this`history
      ensures Valid() && xmit.state == Dead && xmit.current.None? && xmit.queue == []
      ensures history.accepted == old(history.accepted) && history.sent == old(history.sent)
      ensures DecidedNow(old(history), history)
      ensures Settles(old(xmit), old(pool), old(history.fates), xmit, pool, history.fates)
      ensures Leave(old(history.fates), history.fates, [], Cur(old(xmit)), [], old(xmit.queue))
    {
      hide Dying, Agrees, Settles, Leave, Inside, DecidedNow;
      AgreesFacts(cfg, xmit, history, pool);
      CountedFact(cfg, xmit, history, pool);
      AliveIsDying(cfg, xmit, history, pool);
      ghost var fates := history.fates;
      LeaveNothing(fates);
      SameInside(xmit, pool, fates, xmit);
      DecidedNothing(history);
      if xmit.current.Some? {
        var it := xmit.current.value;
        var inuse := Decrement(it.id);
        assert inuse >= 0;
        var ours := pool[it.id].ours;
        var e := Settlement(it, CutOff, FateOfCurrent(cfg, ours, inuse), inuse, ours);
        CurrentSettled(cfg, xmit, history, old(pool), e);
        SettlesCurrent(xmit, old(pool), history.others, fates, xmit.(current := None), e);
        LeaveOne(fates, e);
        DecidedOne(history, e);
        Settle(it.id, e.fate);
        history := history.(fates := history.fates + [e]);
        xmit := xmit.(current := None);
      }
      ghost var x, p, f, h := xmit, pool, history.fates, history;
      TearDown([]);
      DecidedThen(old(history), h, history);
      SettlesThen(old(xmit), old(pool), fates, x, p, f, xmit, pool, history.fates);
      LeaveQueue(fates, f, history.fates, Cur(old(xmit)), [], old(xmit.queue));
      DyingIsDead(cfg, xmit, history, pool);
    }

    /** Submission of a buffer: accepted unless the socket is not there. */
    method Send(it: Item) returns (ok: bool)
      requires Valid() && Resting(xmit)
      requires it.id in pool && !pool[it.id].free && pool[it.id].inuse >= 1
      requires forall i :: 0 <= i < |Inside(xmit)| ==> Inside(xmit)[i].id != it.id
      modifies this
      ensures Valid() && Resting(xmit)
      ensures ok == (old(xmit.state) == Ready || old(xmit.state) == Congested)
      ensures var c := old(pool)[it.id];
              var h := Accept(old(history), it, Holding(c.inuse, c.ours || old(xmit.state) == Ready));
              ok ==> Ran(Queued(old(xmit), it), old(pool), h, xmit, pool, history, failures - old(failures))
      ensures ok && old(xmit.state) == Congested ==> xmit == Queued(old(xmit), it) && pool == old(pool)
      ensures failures == old(failures) + if xmit.state == Dead && old(xmit.state) != Dead then 1 else 0
      ensures blocks == old(blocks) + if xmit.state == Congested && old(xmit.state) != Congested then 1 else 0
      ensures old(xmit.state) == Ready && failures == old(failures) && blocks == old(blocks) ==>
                history.sent == history.accepted && history.wire == Concat(history.accepted)
      ensures !ok ==> history == old(history) && xmit == old(xmit) && pool == old(pool)
    {
      hide Agrees, Ran, Inside, OnlySent, Concat;
      match xmit.state {
        case Unborn =>
          ok := false;
        case Ready =>
          StartedAgrees(cfg, xmit, history, pool, it, pool[it.id].inuse);
          history := Accept(history, it, Holding(pool[it.id].inuse, true));
          Increment(it.id);
          pool := pool[it.id := pool[it.id].(ours := true)];
          assert pool == old(pool)[it.id := Counter(old(pool)[it.id].inuse + 1, false, true)];
          xmit := xmit.(current := Some(it));
          ghost var x, p, h := xmit, pool, history;
          RunFsm();
          StartedThen(old(xmit), old(pool), it, x, p, h, xmit, pool, history, failures - old(failures));
          if xmit.state == Ready {
            IdleHasSentAll(this);
          }
          ok := true;
        case Congested =>
          QueuedAgrees(cfg, xmit, history, pool, it, Holding(pool[it.id].inuse, pool[it.id].ours));
          history := Accept(history, it, Holding(pool[it.id].inuse, pool[it.id].ours));
          xmit := xmit.(queue := xmit.queue + [it]);
          AtFirst(xmit, pool, history);
          ok := true;
        case Dead =>
          ok := false;
      }
    }

    /**
      Other holders take and drop references to a buffer, or change its opaque reference.
      While it is inside the transmitter they keep at least one.
     */
    method ChangeHolders(id: nat, n: nat, ours: bool)
      requires Valid() && id in pool && !pool[id].free && (IsInside(xmit, id) ==> n >= 1)
      modifies this`pool, this`history
      ensures Valid() && history == old(history).(others := old(history).others[id := Holding(n, ours)])
      ensures pool == old(pool)[id := Counter(n + Own(xmit, id), false, ours)]
    {
      hide Agrees;
      HoldersAgree(cfg, xmit, history, pool, id, n, ours);
      pool := pool[id := Counter(n + Own(xmit, id), false, ours)];
      history := history.(others := history.others[id := Holding(n, ours)]);
    }

    /**
      A transaction times out: its owner drops the reference it had saved, takes the
      buffer out of the queue, frees it if nobody else uses it, and makes sure that no
      callback will see it.
     */
    method Withdraw(i: nat)
      requires Valid() && i < |xmit.queue| && xmit.queue[i].id in pool && pool[xmit.queue[i].id].inuse > 1
      modifies this
      ensures Valid() && xmit == old(xmit).(queue := Cut(old(xmit.queue), i))
      ensures history.accepted == Cut(old(history.accepted), |old(history.accepted)| - |old(xmit.queue)| + i)
      ensures history.withdrawn == old(history.withdrawn) + [old(xmit.queue)[i]]
      ensures history.wire == old(history.wire) && history.sent == old(history.sent) && history.fates == old(history.fates)
      ensures var id := old(xmit.queue)[i].id;
              pool == old(pool)[id := if old(pool)[id].inuse == 2 then Counter(0, true, false) else Counter(old(pool)[id].inuse - 1, false, false)]
    {
      hide Agrees;
      WithdrawnAgrees(cfg, xmit, history, pool, i);
      var id := xmit.queue[i].id;
      var c := if pool[id].inuse == 2 then Counter(0, true, false) else Counter(pool[id].inuse - 1, false, false);
      ElsewhereAgrees(cfg, xmit.(queue := Cut(xmit.queue, i)), Withdrawn(xmit, history, i), pool, id, c);
      history := Withdrawn(xmit, history, i);
      xmit := xmit.(queue := Cut(xmit.queue, i));
      pool := pool[id := c];
    }

    /** A buffer that is not inside may be freed and allocated again. */
    method ChangeElsewhere(id: nat, c: Counter)
      requires Valid() && !IsInside(xmit, id)
      modifies this`pool
      ensures Valid() && pool == old(pool)[id := c]
    {
      hide Agrees;
      ElsewhereAgrees(cfg, xmit, history, pool, id, c);
      pool := pool[id := c];
    }

    /** The socket can be written again: resume if it was congested. */
    method OnWritable()
      requires Valid() && Resting(xmit)
      modifies this
      ensures Valid() && Resting(xmit)
      ensures Ran(old(xmit), old(pool), old(history), xmit, pool, history, failures - old(failures))
      ensures failures == old(failures) + if xmit.state == Dead && old(xmit.state) != Dead then 1 else 0
      ensures blocks == old(blocks) + if xmit.state == Congested then 1 else 0
      ensures old(xmit.state) == Congested && failures == old(failures) && blocks == old(blocks) ==>
                history.sent == history.accepted && history.wire == Concat(history.accepted)
    {
      hide Agrees, Ran, Inside, OnlySent, Concat;
      AtFirst(xmit, pool, history);
      AgreesFacts(cfg, xmit, history, pool);
      if xmit.congestedFlag {
        RunFsm();
      }
      if xmit.state == Ready {
        IdleHasSentAll(this);
      }
    }
  }

  // --------------------------------------------------------------- what it guarantees

  /** At any time the wire carries a prefix of the submissions, in the order of submission. */
  lemma WireIsPrefix(t: Transmitter)
    requires t.Valid()
    ensures t.history.wire <= Concat(t.history.accepted)
    ensures t.history.sent <= t.history.accepted && Concat(t.history.sent) <= t.history.wire
    ensures t.history.totalBytes == |t.history.wire|
  {
    AliveIsDying(t.cfg, t.xmit, t.history, t.pool);
  }

  /** An idle transmitter has sent everything that was submitted. */
  lemma IdleHasSentAll(t: Transmitter)
    requires t.Valid() && Resting(t.xmit) && t.xmit.state == Ready
    ensures t.history.wire == Concat(t.history.accepted) && t.history.sent == t.history.accepted
  {
    assert Inside(t.xmit) == [];
    assert t.history.sent + [] == t.history.sent;
    assert Concat(t.history.sent) + [] == Concat(t.history.sent);
  }

  /** Idle or dead, every submission has met exactly one fate. */
  lemma EveryBufferSettledOnce(t: Transmitter)
    requires t.Valid() && Resting(t.xmit) && (t.xmit.state == Ready || t.xmit.state == Dead)
    ensures multiset(Settled(t.history.fates)) == multiset(t.history.accepted)
  {
    assert Inside(t.xmit) == [];
    assert multiset(Settled(t.history.fates)) + multiset([]) == multiset(Settled(t.history.fates));
  }

  /** Who gets a buffer in the end: callbacks if they are there and it is this socket's, and only what nobody gets is freed. */
  lemma WhoGetsTheBuffer(t: Transmitter, i: nat)
    requires t.Valid() && i < |t.history.fates|
    ensures var e := t.history.fates[i];
            match e.cause
            case Transmitted => (e.fate == DoneCallback <==> t.cfg.hasDone && e.ours) && e.fate != DiscCallback
            case CutOff => (e.fate == DoneCallback <==> t.cfg.hasDone && e.ours) && e.fate != DiscCallback
            case Failed => (e.fate == DiscCallback <==> t.cfg.hasDisc && e.ours) && e.fate != DoneCallback
            case NeverStarted => (e.fate == DoneCallback <==> t.cfg.hasDone) && e.fate != DiscCallback
    ensures var e := t.history.fates[i];
            Remains(e).free <==> e.inuse == 1 && e.fate != DoneCallback && e.fate != DiscCallback
  {
    assert Deserved(t.cfg, t.history.fates[i]);
  }

  /** Without callbacks, exactly the buffers that have no other user when they are settled are freed. */
  lemma FreedWithoutCallbacks(t: Transmitter, i: nat)
    requires t.Valid() && !t.cfg.hasDone && !t.cfg.hasDisc && i < |t.history.fates|
    ensures var e := t.history.fates[i]; e.inuse >= 1 && e.fate == if e.inuse == 1 then Freed else Shared
  {
    assert Deserved(t.cfg, t.history.fates[i]);
  }
}
