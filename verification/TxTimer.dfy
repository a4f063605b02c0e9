/**
  One slot of the transaction timers: a queue of cells whose dates are kept modulo
  2^32 milliseconds.  `now` is the true time, which never goes back; the code sees it
  modulo 2^32 only.
 */
module TxTimer {

  const WRAP := 0x1_0000_0000

  function Clock(time: nat): (c: nat)
    ensures c < WRAP
  {
    time % WRAP
  }

  /** A timer, with the date and the delay it holds, both below 2^32. */
  datatype Cell = Cell(id: nat, date: nat, delay: nat)

  /** The test of the periodic lookup, on the two wrapped dates. */
  predicate Expired(cur: nat, date: nat, delay: nat) {
    if cur > date then WRAP - 1 - cur + date >= delay else cur == date
  }

  /** When not expired: a date further ahead than the delay is taken for one out of sync. */
  function Readjusted(cur: nat, cell: Cell): Cell {
    if cur < cell.date && cell.date - cur > cell.delay then cell.(date := cur + cell.delay) else cell
  }

  // --------------------------------------------------------------- wrapped and true

  lemma ClockSplit(time: nat)
    ensures time == time / WRAP * WRAP + Clock(time)
  {}

  /** Before its deadline, and not sooner than it was started, a timer does not fire and is not moved. */
  lemma NotEarly(now: nat, due: nat, delay: nat)
    requires now < due <= now + delay && delay < WRAP
    ensures !Expired(Clock(now), Clock(due), delay)
    ensures Clock(now) < Clock(due) ==> Clock(due) - Clock(now) <= delay
  {
    ClockSplit(now);
    ClockSplit(due);
    var a, b := now / WRAP, due / WRAP;
    assert b == a || b == a + 1;
  }

  /** Whole turns of the clock do not show. */
  lemma TurnsDoNotShow(time: nat, turns: nat)
    ensures Clock(time + turns * WRAP) == Clock(time)
  {}

  /** How late a timer is, but for whole turns of the clock. */
  function Late(now: nat, due: nat): (late: nat)
    requires due <= now
    ensures late < WRAP
  {
    (now - due) % WRAP
  }

  /**
    From the deadline on, exactly when a timer fires: if it is late, whole turns of the
    clock aside, by less than 2^32 minus the delay, and by no more than brings the clock
    from its deadline to the next wrap.
   */
  lemma FiresExactly(now: nat, due: nat, delay: nat)
    requires due <= now && delay < WRAP
    ensures Expired(Clock(now), Clock(due), delay) <==>
      Late(now, due) < WRAP - delay && (due + Late(now, due)) / WRAP == due / WRAP
  {
    var late := Late(now, due);
    var turns := (now - due) / WRAP;
    assert now == due + late + turns * WRAP;
    TurnsDoNotShow(due + late, turns);
    FiresWithinTurn(due + late, due, delay);
  }

  lemma FiresWithinTurn(now: nat, due: nat, delay: nat)
    requires due <= now < due + WRAP && delay < WRAP
    ensures Expired(Clock(now), Clock(due), delay) <==> now / WRAP == due / WRAP && now - due < WRAP - delay
  {
    ClockSplit(now);
    ClockSplit(due);
    var a, b := now / WRAP, due / WRAP;
    assert a == b || a == b + 1;
  }

  /** A timer that is moved was due, before the last turn of the clock; it gets its whole delay again. */
  lemma MovedWhenLate(now: nat, due: nat, cell: Cell)
    requires due <= now + cell.delay && cell.delay < WRAP && cell.date == Clock(due)
    requires !Expired(Clock(now), cell.date, cell.delay)
    ensures var c := Readjusted(Clock(now), cell);
            c == cell || (due < now && now / WRAP > due / WRAP && c.date == Clock(now + cell.delay))
  {
    var c := Readjusted(Clock(now), cell);
    if c != cell {
      if due > now { NotEarly(now, due, cell.delay); }
      ClockSplit(now);
      ClockSplit(due);
      assert Clock(now) + cell.delay < WRAP;
      SmallStep(now, cell.delay);
    }
  }

  /**
    From the deadline on, exactly when a timer is moved: if it is late, whole turns aside, by less
    than 2^32 minus the delay, and the clock wrapped in between.  FiresExactly covers the other half.
   */
  lemma MovedExactly(now: nat, due: nat, cell: Cell)
    requires due <= now + cell.delay && cell.delay < WRAP && cell.date == Clock(due)
    ensures due > now ==> Readjusted(Clock(now), cell) == cell
    ensures due <= now ==>
      (Readjusted(Clock(now), cell) != cell <==>
       Late(now, due) < WRAP - cell.delay && (due + Late(now, due)) / WRAP != due / WRAP)
    ensures Readjusted(Clock(now), cell) != cell ==> Readjusted(Clock(now), cell) == cell.(date := Clock(now + cell.delay))
  {
    if due > now {
      NotEarly(now, due, cell.delay);
    } else {
      var late := Late(now, due);
      var turns := (now - due) / WRAP;
      assert now == due + late + turns * WRAP;
      TurnsDoNotShow(due + late, turns);
      MovedWithinTurn(due + late, due, cell);
      if Readjusted(Clock(now), cell) != cell { SmallStep(now, cell.delay); }
    }
  }

  lemma MovedWithinTurn(now: nat, due: nat, cell: Cell)
    requires due <= now < due + WRAP && cell.delay < WRAP && cell.date == Clock(due)
    ensures Readjusted(Clock(now), cell) != cell <==> now / WRAP != due / WRAP && now - due < WRAP - cell.delay
  {
    ClockSplit(now);
    ClockSplit(due);
    var a, b := now / WRAP, due / WRAP;
    assert a == b || a == b + 1;
  }

  lemma SmallStep(now: nat, d: nat)
    requires Clock(now) + d < WRAP
    ensures Clock(now + d) == Clock(now) + d
  {
    ClockSplit(now);
    ClockSplit(now + d);
  }

  // ------------------------------------------------------------------------ the slot

  /** The cells hold the wrapped deadlines, none further ahead than its delay. */
  ghost predicate Agrees(queue: seq<Cell>, due: seq<nat>, now: nat) {
    && |due| == |queue|
    && (forall i, j :: 0 <= i < j < |queue| ==> queue[i].id != queue[j].id)
    && forall i :: 0 <= i < |queue| ==> queue[i].delay < WRAP && queue[i].date == Clock(due[i]) && due[i] <= now + queue[i].delay
  }

  ghost predicate Queued(queue: seq<Cell>, id: nat) {
    exists i :: 0 <= i < |queue| && queue[i].id == id
  }

  /** The second queue is the first one without the timer. */
  ghost predicate TakenOut(queue: seq<Cell>, due: seq<nat>, queue': seq<Cell>, due': seq<nat>, id: nat)
    requires |due| == |queue|
  {
    exists i ::
      && 0 <= i < |queue| && queue[i].id == id
      && queue' == queue[..i] + queue[i + 1..] && due' == due[..i] + due[i + 1..]
  }

  ghost predicate Sorted(due: seq<nat>) {
    forall i, j :: 0 <= i < j < |due| ==> due[i] <= due[j]
  }

  ghost predicate OneDelay(queue: seq<Cell>, d: nat) {
    forall i :: 0 <= i < |queue| ==> queue[i].delay == d
  }

  /** The deadline lies in the current turn of the clock, and not too far back. */
  ghost predicate Caught(cell: Cell, due: nat, now: nat) {
    now / WRAP == due / WRAP && now - due < WRAP - cell.delay
  }

  /** The lookups are frequent enough: no deadline passed before the last turn of the clock, or too long ago. */
  ghost predicate InTime(queue: seq<Cell>, due: seq<nat>, now: nat) {
    |due| == |queue| && forall i :: 0 <= i < |queue| && due[i] <= now ==> Caught(queue[i], due[i], now)
  }

  class Slot {
    var queue: seq<Cell>
    ghost var due: seq<nat>      // the true deadlines
    ghost var now: nat           // the time of the last operation

    ghost predicate Valid()
      reads this
    {
      Agrees(queue, due, now)
    }

    constructor ()
      ensures Valid() && queue == [] && now == 0
    {
      queue, due, now := [], [], 0;
    }

    /** Dequeue a timer; nothing happens if it is not queued. */
    method Stop(id: nat)
      requires Valid()
      modifies this`queue, this`due
      ensures Valid() && !Queued(queue, id)
      ensures !Queued(old(queue), id) ==> queue == old(queue) && due == old(due)
      ensures Queued(old(queue), id) ==> TakenOut(old(queue), old(due), queue, due, id)
      ensures Sorted(old(due)) ==> Sorted(due)
      ensures forall d :: OneDelay(old(queue), d) ==> OneDelay(queue, d)
      ensures forall t :: InTime(old(queue), old(due), t) ==> InTime(queue, due, t)
    {
      hide Agrees, Sorted, OneDelay, InTime;
      AgreesFacts(queue, due, now);
      var i := 0;
      while i < |queue| && queue[i].id != id
        invariant 0 <= i <= |queue| && forall j :: 0 <= j < i ==> queue[j].id != id
      {
        i := i + 1;
      }
      if i < |queue| {
        CutAgrees(queue, due, now, i);
        queue := queue[..i] + queue[i + 1..];
        due := due[..i] + due[i + 1..];
        assert TakenOut(old(queue), old(due), queue, due, id);
      }
    }

    /** Start a timer, or start it again: it is dequeued first if it is queued. */
    method Start(id: nat, delay: nat, time: nat)
      requires Valid() && time >= now && delay < WRAP
      modifies this
      ensures Valid() && now == time && queue != []
      ensures queue[|queue| - 1] == Cell(id, Clock(time + delay), delay) && due[|due| - 1] == time + delay
      ensures !Queued(queue[..|queue| - 1], id)
      ensures !Queued(old(queue), id) ==> queue[..|queue| - 1] == old(queue) && due[..|due| - 1] == old(due)
      ensures Queued(old(queue), id) ==> TakenOut(old(queue), old(due), queue[..|queue| - 1], due[..|due| - 1], id)
      ensures Sorted(old(due)) && OneDelay(old(queue), delay) ==> Sorted(due) && OneDelay(queue, delay)
      ensures InTime(old(queue), old(due), time) ==> InTime(queue, due, time)
    {
      hide Agrees, Sorted, OneDelay, InTime, Clock;
      AgreesFacts(queue, due, now);
      Stop(id);
      ghost var rest, deadlines := queue, due;
      AppendAgrees(queue, due, now, time, id, delay);
      queue := queue + [Cell(id, (delay + time % WRAP) % WRAP, delay)];
      due := due + [time + delay];
      now := time;
      WrappedSum(time, delay);
      assert queue[..|queue| - 1] == rest && due[..|due| - 1] == deadlines;
    }

    /** A callback may start and stop timers of the slot, in any number. */
    method Callback(time: nat)
      requires Valid() && now == time
      modifies this
      ensures Valid() && now == time
      ensures InTime(old(queue), old(due), time) ==> InTime(queue, due, time)
    {
      hide Agrees, InTime;
      var calls: int := *;
      while calls > 0
        invariant Valid() && now == time
        invariant InTime(old(queue), old(due), time) ==> InTime(queue, due, time)
      {
        var id: nat, delay: nat := *, *;
        if delay < WRAP {
          Start(id, delay, time);
        } else {
          Stop(id);
        }
        calls := calls - 1;
      }
    }

    /** Dequeue the head, which has expired. */
    method Fire() returns (head: Cell)
      requires Valid() && queue != []
      modifies this`queue, this`due
      ensures Valid() && head == old(queue)[0] && queue == old(queue)[1..] && due == old(due)[1..]
      ensures forall t :: InTime(old(queue), old(due), t) ==> InTime(queue, due, t)
    {
      head := queue[0];
      queue, due := queue[1..], due[1..];
    }

    /**
      The lookup fires timers from the head of the queue, never early.  When lookups are in
      time, it stops only for lack of credit or at a timer that is not due.  Unless the
      callbacks touch the timers of the slot, what it fires is a prefix of the queue.
     */
    method ProcessSlot(time: nat, credit: nat, reentrant: bool) returns (fired: seq<Cell>, ghost dates: seq<nat>)
      requires Valid() && time >= now
      modifies this
      ensures Valid() && now == time && |dates| == |fired| <= credit
      ensures forall i :: 0 <= i < |fired| ==> dates[i] <= time && fired[i].date == Clock(dates[i])
      ensures forall i :: 0 <= i < |fired| ==> Expired(Clock(time), fired[i].date, fired[i].delay)
      ensures InTime(old(queue), old(due), time) && |fired| < credit && queue != [] ==> due[0] > time
      ensures !reentrant ==> StoppedAt(old(queue), |fired|, queue, Clock(time), |fired| == credit)
      ensures !reentrant ==> FiredFrom(old(queue), old(due), fired, dates, queue, due)
      ensures !reentrant && InTime(old(queue), old(due), time) ==> old(queue) == fired + queue && old(due) == dates + due
      ensures !reentrant && InTime(old(queue), old(due), time) && Sorted(old(due)) && |fired| < credit ==>
        forall i :: 0 <= i < |due| ==> due[i] > time
    {
      hide Clock, Agrees, InTime, Caught, Sorted, FiredFrom, StoppedAt, Expired, Readjusted;
      now := time;
      LaterAgrees(queue, due, old(now), time);
      fired, dates := [], [];
      var left := credit;
      while queue != [] && left > 0
        invariant Valid() && now == time && |dates| == |fired| == credit - left
        invariant forall i :: 0 <= i < |fired| ==> dates[i] <= time && fired[i].date == Clock(dates[i])
        invariant forall i :: 0 <= i < |fired| ==> Expired(Clock(time), fired[i].date, fired[i].delay)
        invariant InTime(old(queue), old(due), time) ==> InTime(queue, due, time)
        invariant !reentrant ==> old(queue) == fired + queue && old(due) == dates + due
        decreases left
      {
        AgreesFacts(queue, due, time);
        ghost var before, deadlines := queue, due;
        var expired := Head(time);
        if !expired {
          if !reentrant {
            HeadLeft(old(queue), old(due), fired, dates, before, deadlines, queue, due);
            StoppedAtHead(old(queue), fired, before, queue, Clock(time));
          }
          if InTime(old(queue), old(due), time) && Sorted(old(due)) && !reentrant {
            SuffixSorted(old(due), dates, due);
            SortedNoneDue(due, time);
          }
          return;
        }
        var head := Fire();
        MoveHead(fired, before);
        MoveHead(dates, deadlines);
        fired, dates := fired + [head], dates + [deadlines[0]];
        left := left - 1;
        if reentrant {
          Callback(time);
        }
      }
      AgreesFacts(queue, due, time);
      if !reentrant {
        HeadLeft(old(queue), old(due), fired, dates, queue, due, queue, due);
        OutOfCredit(old(queue), fired, queue, Clock(time), |fired| == credit);
      }
    }

    /** Look at the head of the queue; if it has not expired its date may be readjusted. */
    method Head(time: nat) returns (expired: bool)
      requires Valid() && now == time && queue != []
      modifies this`queue, this`due
      ensures Valid() && |queue| == |due| == |old(queue)| && queue[1..] == old(queue)[1..] && due[1..] == old(due)[1..]
      ensures expired <==> Expired(Clock(time), old(queue)[0].date, old(queue)[0].delay)
      ensures expired ==> queue == old(queue) && due == old(due) && due[0] <= time
      ensures !expired ==> queue[0] == Readjusted(Clock(time), old(queue)[0])
      ensures !expired ==> due[0] == if queue[0] == old(queue)[0] then old(due)[0] else time + queue[0].delay
      ensures !expired && InTime(old(queue), old(due), time) ==> queue == old(queue) && due == old(due) && due[0] > time
    {
      hide Clock;
      var cur, head := Clock(time), queue[0];
      if Expired(cur, head.date, head.delay) {
        if due[0] > time { NotEarly(time, due[0], head.delay); }
        return true;
      }
      MovedWhenLate(time, due[0], head);
      if due[0] <= time && Caught(head, due[0], time) { FiresWithinTurn(time, due[0], head.delay); }
      var moved := Readjusted(cur, head);
      if moved != head {
        queue := [moved] + queue[1..];
        due := [time + head.delay] + due[1..];
      }
      expired := false;
    }
  }

  /** Taking out timer i. */
  lemma CutAgrees(queue: seq<Cell>, due: seq<nat>, now: nat, i: nat)
    requires Agrees(queue, due, now) && i < |queue|
    ensures var q, d := queue[..i] + queue[i + 1..], due[..i] + due[i + 1..];
            && Agrees(q, d, now) && !Queued(q, queue[i].id)
            && (Sorted(due) ==> Sorted(d))
            && (forall x :: OneDelay(queue, x) ==> OneDelay(q, x))
            && (forall t :: InTime(queue, due, t) ==> InTime(q, d, t))
  {
    hide Clock, Caught;
    var q, d := queue[..i] + queue[i + 1..], due[..i] + due[i + 1..];
    assert forall j :: 0 <= j < |q| ==> q[j] == queue[if j < i then j else j + 1] && d[j] == due[if j < i then j else j + 1];
  }

  /** Adding a timer at the end: with one delay its deadline is the latest. */
  lemma AppendAgrees(queue: seq<Cell>, due: seq<nat>, now: nat, time: nat, id: nat, delay: nat)
    requires Agrees(queue, due, now) && now <= time && !Queued(queue, id) && delay < WRAP
    ensures var q, d := queue + [Cell(id, Clock(time + delay), delay)], due + [time + delay];
            && Agrees(q, d, time)
            && (Sorted(due) && OneDelay(queue, delay) ==> Sorted(d) && OneDelay(q, delay))
            && (InTime(queue, due, time) ==> InTime(q, d, time))
  {
    hide Clock;
  }

  /** The timers fired are the first ones of the queue; what is left is the rest, but for the date of its head. */
  ghost predicate FiredFrom(queue: seq<Cell>, due: seq<nat>, fired: seq<Cell>, dates: seq<nat>, queue': seq<Cell>, due': seq<nat>) {
    && fired <= queue && dates <= due && |queue'| == |due'| == |queue| - |fired|
    && (queue' != [] ==> queue'[1..] == queue[|fired| + 1..])
    && (due' != [] && |dates| < |due| ==> due'[1..] == due[|dates| + 1..])
  }

  /** The lookup stops after n timers: out of credit, or at one that has not expired, which it may move. */
  ghost predicate StoppedAt(queue: seq<Cell>, n: nat, queue': seq<Cell>, cur: nat, spent: bool) {
    && n <= |queue| && |queue'| == |queue| - n
    && (spent ==> queue' == queue[n..])
    && (!spent && n < |queue| ==> !Expired(cur, queue[n].date, queue[n].delay) && queue'[0] == Readjusted(cur, queue[n]))
  }

  lemma HeadLeft(queue: seq<Cell>, due: seq<nat>, fired: seq<Cell>, dates: seq<nat>,
                 rest: seq<Cell>, restDue: seq<nat>, rest': seq<Cell>, restDue': seq<nat>)
    requires queue == fired + rest && due == dates + restDue && |rest| == |restDue| == |rest'| == |restDue'|
    requires rest != [] ==> rest'[1..] == rest[1..] && restDue'[1..] == restDue[1..]
    ensures FiredFrom(queue, due, fired, dates, rest', restDue')
  {}

  lemma StoppedAtHead(queue: seq<Cell>, fired: seq<Cell>, rest: seq<Cell>, rest': seq<Cell>, cur: nat)
    requires queue == fired + rest && |rest'| == |rest|
    requires rest != [] ==> !Expired(cur, rest[0].date, rest[0].delay) && rest'[0] == Readjusted(cur, rest[0])
    ensures StoppedAt(queue, |fired|, rest', cur, false)
  {
    hide Expired, Readjusted;
    if rest != [] { assert queue[|fired|] == rest[0]; }
  }

  lemma OutOfCredit(queue: seq<Cell>, fired: seq<Cell>, rest: seq<Cell>, cur: nat, spent: bool)
    requires queue == fired + rest && (spent || rest == [])
    ensures StoppedAt(queue, |fired|, rest, cur, spent)
  {
    hide Expired, Readjusted;
  }

  lemma MoveHead<T>(a: seq<T>, b: seq<T>)
    requires b != []
    ensures a + b == (a + [b[0]]) + b[1..]
  {}

  lemma LaterAgrees(queue: seq<Cell>, due: seq<nat>, now: nat, later: nat)
    requires Agrees(queue, due, now) && now <= later
    ensures Agrees(queue, due, later)
  {}

  lemma AgreesFacts(queue: seq<Cell>, due: seq<nat>, now: nat)
    requires Agrees(queue, due, now)
    ensures |due| == |queue| && (queue != [] ==> queue[0].date == Clock(due[0]))
  {}

  lemma SuffixSorted(due: seq<nat>, prefix: seq<nat>, suffix: seq<nat>)
    requires Sorted(due) && due == prefix + suffix
    ensures Sorted(suffix)
  {
    assert forall i :: 0 <= i < |suffix| ==> suffix[i] == due[|prefix| + i];
  }

  /** In a sorted queue whose head is not due, no timer is. */
  lemma SortedNoneDue(due: seq<nat>, time: nat)
    requires Sorted(due) && (due != [] ==> due[0] > time)
    ensures forall i :: 0 <= i < |due| ==> due[i] > time
  {}

  lemma WrappedSum(time: nat, delay: nat)
    requires delay < WRAP
    ensures (delay + time % WRAP) % WRAP == Clock(time + delay)
  {
    ClockSplit(time);
  }
}
