/**
The client counter of an epoll client thread: how the event loop, the accepting
thread and the other users of the connection manager move it, and by exactly how
much it can go wrong.
*/
module ClientThread {

  const COUNTER_SIZE: int := 0x1_0000_0000_0000_0000

  /** A descriptor, which is also the key of its connection. */
  type Fd = i: int | -0x8000_0000 <= i < 0x8000_0000

  /** One reported event and what the calls made for it return. */
  datatype EpollEvent = EpollEvent(fd: Fd, epollin: bool, epollout: bool, recvOk: bool, sendOk: bool)

  /** `m_aullClientNums` and the keys of the manager that all client threads share. */
  datatype Ledger = Ledger(nums: nat, conns: set<Fd>)

  /** Unsigned 64-bit subtraction of one, with its wrap-around. */
  function Decrement(n: nat): nat {
    if n == 0 then COUNTER_SIZE - 1 else n - 1
  }

  function Increment(n: nat): nat {
    if n == COUNTER_SIZE - 1 then 0 else n + 1
  }

  function Lose(l: Ledger, fd: Fd): Ledger {
    Ledger(Decrement(l.nums), l.conns - {fd})
  }

  /** Whether the read half of an event fails. */
  predicate ReadFails(e: EpollEvent) {
    e.epollin && e.fd >= 0 && !e.recvOk
  }

  /** Whether the loop goes on to the write half. */
  predicate TriesToWrite(e: EpollEvent) {
    e.epollout && (e.epollin ==> e.fd >= 0)
  }

  function AfterRead(l: Ledger, e: EpollEvent): Ledger {
    if ReadFails(e) then Lose(l, e.fd) else l
  }

  function AfterEvent(l: Ledger, e: EpollEvent): Ledger {
    if !e.epollin && !e.epollout then Lose(l, e.fd)
    else
      var m := AfterRead(l, e);
      if TriesToWrite(e) && e.fd in m.conns && !e.sendOk then Lose(m, e.fd) else m
  }

  /** The loop over one batch: it ends at the first event with neither readiness. */
  function AfterBatch(l: Ledger, events: seq<EpollEvent>): Ledger
    decreases |events|
  {
    if |events| == 0 then l
    else if EndsThread(events[0]) then AfterEvent(l, events[0])
    else AfterBatch(AfterEvent(l, events[0]), events[1..])
  }

  predicate EndsThread(e: EpollEvent) {
    !e.epollin && !e.epollout
  }

  class ConnectionTable {
    var conns: set<Fd>

    constructor ()
      ensures conns == {}
    {
      conns := {};
    }

    method RemoveConnection(fd: Fd) returns (removed: bool)
      modifies this
      ensures conns == old(conns) - {fd} && (removed <==> fd in old(conns))
    {
      removed := fd in conns;
      conns := conns - {fd};
    }
  }

  class Worker {
    var clientNums: nat
    var epollfd: int
    /** `m_emThreadState`: whether the thread counts as started. */
    var started: bool
    const table: ConnectionTable

    ghost function LedgerNow(): Ledger
      reads this, table
    {
      Ledger(clientNums, table.conns)
    }

    constructor (table: ConnectionTable, epollfd: int)
      ensures this.table == table && this.epollfd == epollfd && started && clientNums == 0
    {
      this.table := table;
      this.epollfd := epollfd;
      started := true;
      clientNums := 0;
    }

    /** Counts and reports a client exactly when the thread looks alive and the watch succeeds. */
    method AddNewClient(watchOk: bool, outEpollfdIn: int) returns (result: int, outEpollfd: int)
      modifies this`clientNums
      ensures result == (if epollfd >= 0 && started && watchOk then 0 else -1)
      ensures clientNums == (if result == 0 then Increment(old(clientNums)) else old(clientNums))
      ensures result == 0 && old(clientNums) < 0x1_0000_0000_0000_0000
              ==> clientNums == (old(clientNums) + 1) % 0x1_0000_0000_0000_0000
      ensures outEpollfd == (if result == 0 then epollfd else outEpollfdIn)
    {
      if 0 > epollfd || !started {
        return -1, outEpollfdIn;
      }
      if !watchOk {
        return -1, outEpollfdIn;
      }
      clientNums := Increment(clientNums);
      return 0, epollfd;
    }

    /**
    The `for` loop of `Run` over one batch, with a handler attached. A thread that
    exits this way leaves its descriptor and its state as they were, and so goes
    on looking alive to `AddNewClient`.
    */
    method ProcessBatch(eventList: seq<EpollEvent>) returns (exited: bool)
      modifies this`clientNums, table
      ensures LedgerNow() == AfterBatch(old(LedgerNow()), eventList)
      ensures exited <==> exists k :: 0 <= k < |eventList| && EndsThread(eventList[k])
    {
      for i := 0 to |eventList|
        invariant AfterBatch(LedgerNow(), eventList[i..]) == AfterBatch(old(LedgerNow()), eventList)
        invariant forall k :: 0 <= k < i ==> !EndsThread(eventList[k])
      {
        var e := eventList[i];
        ghost var l := LedgerNow();
        assert eventList[i..][0] == e && eventList[i..][1..] == eventList[i + 1..];
        if e.epollin || e.epollout {
          if e.epollin {
            if e.fd < 0 {
              assert LedgerNow() == AfterEvent(l, e);
              continue;
            }
            if !e.recvOk {
              var _ := table.RemoveConnection(e.fd);
              clientNums := Decrement(clientNums);
            }
          }
          assert LedgerNow() == AfterRead(l, e);
          if e.epollout {
            if e.fd !in table.conns {
              continue;
            }
            if !e.sendOk {
              var _ := table.RemoveConnection(e.fd);
              clientNums := Decrement(clientNums);
            }
          }
        } else {
          var _ := table.RemoveConnection(e.fd);
          clientNums := Decrement(clientNums);
          return true;
        }
      }
      assert eventList[|eventList|..] == [];
      return false;
    }
  }

  // ----------------------------------------------- what a batch does, in its own fields

  /** The event takes its connection out of the manager, if it is there when the event is handled. */
  predicate Drops(e: EpollEvent) {
    || (!e.epollin && !e.epollout)
    || (e.epollin && e.fd >= 0 && !e.recvOk)
    || (e.epollout && !e.sendOk && (e.epollin ==> e.fd >= 0))
  }

  /**
  One event, alone: it removes and counts off its number if it has neither
  readiness or its read fails, found or not; if only its send fails, then just a
  number that is found; and nothing in every other case.
  */
  lemma EventInItsFields(l: Ledger, e: EpollEvent)
    ensures var unread := e.epollin && e.fd >= 0 && !e.recvOk;
            var unsent := e.epollout && !e.sendOk && (e.epollin ==> e.fd >= 0) && e.fd in l.conns;
            if (!e.epollin && !e.epollout) || unread || unsent then
              && AfterEvent(l, e).conns == l.conns - {e.fd}
              && AfterEvent(l, e).nums == (if l.nums == 0 then 0xFFFF_FFFF_FFFF_FFFF else l.nums - 1)
            else AfterEvent(l, e) == l
  {
  }

  /** The loop gets to event `k`: none before it has neither readiness. */
  ghost predicate Gets(events: seq<EpollEvent>, k: nat) {
    k < |events| && forall j :: 0 <= j < k ==> events[j].epollin || events[j].epollout
  }

  ghost predicate DroppedBy(events: seq<EpollEvent>, fd: Fd, k: nat) {
    Gets(events, k) && events[k].fd == fd && Drops(events[k])
  }

  /** A registered number is gone after a batch exactly if the loop gets to an event that drops it. */
  lemma {:induction false} BatchDropsExactly(l: Ledger, events: seq<EpollEvent>, fd: Fd)
    requires fd in l.conns
    ensures fd !in AfterBatch(l, events).conns <==> exists k: nat :: DroppedBy(events, fd, k)
    decreases |events|
  {
    if |events| != 0 {
      var e, m := events[0], AfterEvent(l, events[0]);
      EventInItsFields(l, e);
      if e.fd == fd && Drops(e) {
        assert DroppedBy(events, fd, 0);
        NeverComesBack(m, events[1..], fd);
      } else if EndsThread(e) {
        assert forall k: nat :: Gets(events, k) ==> k == 0;
      } else {
        BatchDropsExactly(m, events[1..], fd);
        LaterDrop(events, fd);
      }
    }
  }

  lemma LaterDrop(events: seq<EpollEvent>, fd: Fd)
    requires |events| != 0 && !EndsThread(events[0]) && !(events[0].fd == fd && Drops(events[0]))
    ensures (exists k: nat :: DroppedBy(events, fd, k)) <==> (exists k: nat :: DroppedBy(events[1..], fd, k))
  {
    if k: nat :| DroppedBy(events, fd, k) {
      assert forall j :: 0 <= j < k - 1 ==> events[1..][j] == events[j + 1];
      assert DroppedBy(events[1..], fd, k - 1);
    }
    if k: nat :| DroppedBy(events[1..], fd, k) {
      assert forall j :: 1 <= j < k + 1 ==> events[j] == events[1..][j - 1];
      assert DroppedBy(events, fd, k + 1);
    }
  }

  lemma {:induction false} NeverComesBack(l: Ledger, events: seq<EpollEvent>, fd: Fd)
    requires fd !in l.conns
    ensures fd !in AfterBatch(l, events).conns
    decreases |events|
  {
    if |events| != 0 {
      EventInItsFields(l, events[0]);
      NeverComesBack(AfterEvent(l, events[0]), events[1..], fd);
    }
  }

  /** A batch of events that all have a readiness and whose calls all succeed leaves the books alone. */
  lemma {:induction false} SuccessfulBatchChangesNothing(l: Ledger, events: seq<EpollEvent>)
    requires forall k :: 0 <= k < |events|
               ==> (events[k].epollin || events[k].epollout) && events[k].recvOk && events[k].sendOk
    ensures AfterBatch(l, events) == l
    decreases |events|
  {
    if |events| != 0 {
      EventInItsFields(l, events[0]);
      SuccessfulBatchChangesNothing(l, events[1..]);
    }
  }

  // --------------------------------------------------------------- all that can happen

  /** Which of the three places in the loop removes and counts. */
  datatype Half = ReadHalf | WriteHalf | NeitherHalf

  /** Where the client thread stands between two of its atomic steps. */
  datatype Place =
    | Idle                              // before the next event
    | Removing(e: EpollEvent, h: Half)  // about to call RemoveConnection
    | Counting(e: EpollEvent, h: Half)  // about to decrement the counter
    | Looking(e: EpollEvent)            // about to call GetConnection and to send
    | Ended

  datatype Operation =
    // the accepting thread
    | Admit(fd: Fd)      // AddNewClient on this thread: watched and counted
    | Insert(fd: Fd)     // AddConnection, which does not replace
    | InsertOther(fd: Fd) // AddConnection for a client of another client thread
    // Send, Disconnect or another client thread removes a connection, which this thread does not count
    | Withdraw(fd: Fd)
    // the client thread
    | Report(e: EpollEvent)
    | Remove
    | CountDown
    | Look

  /** `owned` are the keys that stand for clients of this thread, `joining` its clients not yet inserted. */
  datatype Books = Books(ledger: Ledger, owned: set<Fd>, joining: set<Fd>, place: Place)

  predicate Enabled(b: Books, op: Operation) {
    match op
    case Admit(fd) => fd !in b.joining
    case Insert(fd) => fd in b.joining
    case InsertOther(_) => true
    case Withdraw(_) => true
    case Report(_) => b.place.Idle?
    case Remove => b.place.Removing?
    case CountDown => b.place.Counting?
    case Look => b.place.Looking?
  }

  /** The first thing the loop does with an event, its read included. */
  function Start(e: EpollEvent): Place {
    if EndsThread(e) then Removing(e, NeitherHalf)
    else if ReadFails(e) then Removing(e, ReadHalf)
    else AfterReadHalf(e)
  }

  function AfterReadHalf(e: EpollEvent): Place {
    if TriesToWrite(e) then Looking(e) else Idle
  }

  function AfterCount(e: EpollEvent, h: Half): Place {
    match h
    case ReadHalf => AfterReadHalf(e)
    case WriteHalf => Idle
    case NeitherHalf => Ended
  }

  /** The connection is found and its send fails. */
  predicate SendFails(l: Ledger, e: EpollEvent) {
    e.fd in l.conns && !e.sendOk
  }

  function Apply(b: Books, op: Operation): Books
    requires Enabled(b, op)
  {
    var nums, conns := b.ledger.nums, b.ledger.conns;
    match op
    case Admit(fd) => b.(ledger := Ledger(Increment(nums), conns), joining := b.joining + {fd})
    case Insert(fd) =>
      b.(ledger := Ledger(nums, conns + {fd}), joining := b.joining - {fd},
         owned := if fd in conns then b.owned else b.owned + {fd})
    case InsertOther(fd) => b.(ledger := Ledger(nums, conns + {fd}))
    case Withdraw(fd) => b.(ledger := Ledger(nums, conns - {fd}), owned := b.owned - {fd})
    case Report(e) => b.(place := Start(e))
    case Remove =>
      b.(ledger := Ledger(nums, conns - {b.place.e.fd}), owned := b.owned - {b.place.e.fd},
         place := Counting(b.place.e, b.place.h))
    case CountDown => b.(ledger := Ledger(Decrement(nums), conns), place := AfterCount(b.place.e, b.place.h))
    case Look => b.(place := if SendFails(b.ledger, b.place.e) then Removing(b.place.e, WriteHalf) else Idle)
  }

  ghost predicate Legal(b: Books, ops: seq<Operation>)
    decreases |ops|
  {
    |ops| == 0 || (Enabled(b, ops[0]) && Legal(Apply(b, ops[0]), ops[1..]))
  }

  function After(b: Books, ops: seq<Operation>): Books
    requires Legal(b, ops)
    decreases |ops|
  {
    if |ops| == 0 then b else After(Apply(b, ops[0]), ops[1..])
  }

  function One(c: bool): nat {
    if c then 1 else 0
  }

  // -------------------------------------------------------------- the law of the counter

  /** Clients admitted to this thread and not lost: in the manager, on the way there, or being counted off. */
  function Tally(b: Books): nat {
    |b.owned| + |b.joining| + One(b.place.Counting?)
  }

  /**
  A removal by this thread of something else than a client of its own, a removal
  of a client of its own by another, or an insertion that is refused.
  */
  predicate Slips(b: Books, op: Operation) {
    match op
    case Insert(fd) => fd in b.ledger.conns
    case Withdraw(fd) => fd in b.owned
    case Remove => b.place.Removing? && b.place.e.fd !in b.owned
    case _ => false
  }

  /** What an operation does to the difference between counter and tally. */
  function Gap(b: Books, op: Operation): int {
    if !Slips(b, op) then 0 else if op.Remove? then -1 else 1
  }

  function TotalGap(b: Books, ops: seq<Operation>): int
    requires Legal(b, ops)
    decreases |ops|
  {
    if |ops| == 0 then 0 else Gap(b, ops[0]) + TotalGap(Apply(b, ops[0]), ops[1..])
  }

  /** The counter is a 64-bit number, and this thread's keys are keys of the manager. */
  predicate Consistent(b: Books) {
    b.ledger.nums < COUNTER_SIZE && b.owned <= b.ledger.conns
  }

  /** Every operation moves counter and tally alike, up to its gap and a wrap-around. */
  lemma GapOfStep(b: Books, op: Operation) returns (w: int)
    requires Enabled(b, op) && Consistent(b)
    ensures var c := Apply(b, op);
            Consistent(c) && c.ledger.nums - Tally(c) == b.ledger.nums - Tally(b) + Gap(b, op) + COUNTER_SIZE * w
  {
    SizeAfter(b.owned, b.joining, op, if op.Remove? then b.place.e.fd else 0);
    w := if op.CountDown? && b.ledger.nums == 0 then 1
         else if op.Admit? && b.ledger.nums == COUNTER_SIZE - 1 then -1 else 0;
    assert COUNTER_SIZE * w == if w == 1 then COUNTER_SIZE else if w == -1 then -COUNTER_SIZE else 0;
  }

  lemma SizeAfter(owned: set<Fd>, joining: set<Fd>, op: Operation, removed: Fd)
    ensures |owned - {removed}| == |owned| - One(removed in owned)
    ensures op.Withdraw? ==> |owned - {op.fd}| == |owned| - One(op.fd in owned)
    ensures op.Insert? ==> |owned + {op.fd}| == |owned| + One(op.fd !in owned)
    ensures op.Insert? ==> |joining - {op.fd}| == |joining| - One(op.fd in joining)
    ensures op.Admit? ==> |joining + {op.fd}| == |joining| + One(op.fd !in joining)
  {
    SizeWithout(owned, removed);
    if op.Withdraw? {
      SizeWithout(owned, op.fd);
    } else if op.Insert? {
      SizeWithout(joining, op.fd);
      SizeWith(owned, op.fd);
    } else if op.Admit? {
      SizeWith(joining, op.fd);
    }
  }

  lemma SizeWithout(s: set<Fd>, fd: Fd)
    ensures |s - {fd}| == |s| - One(fd in s)
  {
    if fd !in s {
      assert s - {fd} == s;
    }
  }

  lemma SizeWith(s: set<Fd>, fd: Fd)
    ensures |s + {fd}| == |s| + One(fd !in s)
  {
    if fd in s {
      assert s + {fd} == s;
    }
  }

  /**
  The law of the counter, over every interleaving of admissions, insertions,
  the event loop's steps and removals by others: it stands at the clients of this
  thread, plus one for each removal that was not counted and each insertion that
  was refused, minus one for each removal that found nothing, modulo 2^64.
  */
  lemma {:induction false} CounterLaw(b: Books, ops: seq<Operation>) returns (w: int)
    requires Legal(b, ops) && Consistent(b)
    ensures var c := After(b, ops);
            && Consistent(c)
            && c.ledger.nums - Tally(c) == b.ledger.nums - Tally(b) + TotalGap(b, ops) + 0x1_0000_0000_0000_0000 * w
    decreases |ops|
  {
    hide Apply, Gap, Enabled, Tally, Consistent;
    if |ops| == 0 {
      w := 0;
    } else {
      var v := GapOfStep(b, ops[0]);
      var u := CounterLaw(Apply(b, ops[0]), ops[1..]);
      w := v + u;
      Distributes(v, u);
    }
  }

  lemma Distributes(v: int, u: int)
    ensures COUNTER_SIZE * (v + u) == COUNTER_SIZE * v + COUNTER_SIZE * u
  {
  }

  const START := Books(Ledger(0, {}), {}, {}, Idle)

  /** Descriptors are 32-bit numbers, so a tally never comes near the counter's size. */
  lemma TallyInRange(b: Books)
    ensures Tally(b) < COUNTER_SIZE
  {
    BoundedSize(b.owned, 0x8000_0000);
    BoundedSize(b.joining, 0x8000_0000);
  }

  lemma {:induction false} BoundedSize(s: set<Fd>, hi: int)
    requires -0x8000_0000 <= hi && forall fd :: fd in s ==> fd < hi
    ensures |s| <= hi + 0x8000_0000
    decreases hi + 0x8000_0000
  {
    if hi == -0x8000_0000 {
      assert s == {};
    } else {
      var rest := set fd | fd in s && fd < hi - 1;
      BoundedSize(rest, hi - 1);
      assert forall fd :: fd in s ==> fd in rest || fd == hi - 1;
      if hi - 1 in s {
        assert s == rest + {(hi - 1) as Fd};
      } else {
        assert s == rest;
      }
    }
  }

  predicate Right(b: Books) {
    b.ledger.nums == Tally(b)
  }

  /** A whole number of wrap-arounds lies between two numbers in range only if it is none. */
  lemma NoWholeWrap(n: nat, m: nat, gap: int, w: int)
    requires n < COUNTER_SIZE && m < COUNTER_SIZE && n - m == gap + COUNTER_SIZE * w
    ensures n == m <==> gap % COUNTER_SIZE == 0
  {
    if gap % COUNTER_SIZE == 0 {
      assert n - m == COUNTER_SIZE * (gap / COUNTER_SIZE + w);
    }
    if n == m {
      assert gap == COUNTER_SIZE * -w;
    }
  }

  /** After any run the counter tells the truth exactly when its slips balance, modulo 2^64. */
  lemma CounterRightExactly(ops: seq<Operation>)
    requires Legal(START, ops)
    ensures Right(After(START, ops)) <==> TotalGap(START, ops) % COUNTER_SIZE == 0
  {
    hide Apply, Gap, Enabled, After, TotalGap, Legal, Tally;
    var c := After(START, ops);
    var w := CounterLaw(START, ops);
    assert Tally(START) == 0 by {
      EmptyBooks();
    }
    TallyInRange(c);
    NoWholeWrap(c.ledger.nums, Tally(c), TotalGap(START, ops), w);
  }

  lemma EmptyBooks()
    ensures Tally(START) == 0
  {
  }

  /** The operations after which a right counter is wrong are exactly the slips. */
  lemma StaysRightExactly(b: Books, op: Operation)
    requires Enabled(b, op) && Consistent(b) && Right(b)
    ensures Right(Apply(b, op)) <==> !Slips(b, op)
    ensures Consistent(Apply(b, op))
  {
    hide Apply, Enabled, Tally, Slips;
    var c := Apply(b, op);
    TallyInRange(b);
    TallyInRange(c);
    var w := GapOfStep(b, op);
    NoWholeWrap(c.ledger.nums, Tally(c), Gap(b, op), w);
  }

  ghost predicate RightThroughout(b: Books, ops: seq<Operation>)
    requires Legal(b, ops)
    decreases |ops|
  {
    Right(b) && (|ops| == 0 || RightThroughout(Apply(b, ops[0]), ops[1..]))
  }

  /** Only this thread removes its clients, it removes nothing else, and no insertion is refused. */
  ghost predicate Orderly(b: Books, ops: seq<Operation>)
    requires Legal(b, ops)
    decreases |ops|
  {
    |ops| == 0 || (!Slips(b, ops[0]) && Orderly(Apply(b, ops[0]), ops[1..]))
  }

  /** The counter is right all through a run if and only if the run is orderly. */
  lemma {:induction false} OrderlyRunsCountRight(b: Books, ops: seq<Operation>)
    requires Legal(b, ops) && Consistent(b) && Right(b)
    ensures RightThroughout(b, ops) <==> Orderly(b, ops)
    decreases |ops|
  {
    hide Apply, Enabled, Right, Slips, Consistent;
    if |ops| != 0 {
      StaysRightExactly(b, ops[0]);
      var c := Apply(b, ops[0]);
      if Right(c) {
        OrderlyRunsCountRight(c, ops[1..]);
      } else {
        assert !RightThroughout(c, ops[1..]);
      }
    }
  }

  /**
  What the users of a client thread can see to: no insertion is refused, nobody
  else removes a client of this thread, events are reported only for inserted
  clients of it, and no number goes to another thread while an event of it is
  being handled here.
  */
  predicate Careful(b: Books, op: Operation) {
    match op
    case Insert(fd) => fd !in b.ledger.conns
    case InsertOther(fd) => !InHand(b.place, fd)
    case Withdraw(fd) => fd !in b.owned
    case Report(e) => e.fd in b.owned
    case _ => true
  }

  predicate Busy(p: Place) {
    p.Removing? || p.Counting? || p.Looking?
  }

  predicate InHand(p: Place, fd: Fd) {
    Busy(p) && p.e.fd == fd
  }

  ghost predicate CarefulRun(b: Books, ops: seq<Operation>)
    requires Legal(b, ops)
    decreases |ops|
  {
    |ops| == 0 || (Careful(b, ops[0]) && CarefulRun(Apply(b, ops[0]), ops[1..]))
  }

  /** The number in hand is this thread's own or nobody's, and its own when about to be removed. */
  predicate OwnInHand(b: Books) {
    && (Busy(b.place) && b.place.e.fd in b.ledger.conns ==> b.place.e.fd in b.owned)
    && (b.place.Removing? ==> b.place.e.fd in b.owned)
  }

  lemma CarefulStep(b: Books, op: Operation)
    requires Enabled(b, op) && Careful(b, op) && OwnInHand(b) && b.owned <= b.ledger.conns
    ensures !Slips(b, op)
    ensures OwnInHand(Apply(b, op)) && Apply(b, op).owned <= Apply(b, op).ledger.conns
  {
  }

  /** That is enough: every careful run is orderly, and so the counter is right all through it. */
  lemma {:induction false} CarefulRunsCountRight(b: Books, ops: seq<Operation>)
    requires Legal(b, ops) && CarefulRun(b, ops)
    requires Consistent(b) && OwnInHand(b) && Right(b)
    ensures Orderly(b, ops) && RightThroughout(b, ops)
    decreases |ops|
  {
    hide Apply, Enabled, Careful, OwnInHand, Slips, Right, Consistent;
    if |ops| != 0 {
      assert b.owned <= b.ledger.conns by {
        OwnedIsKept(b);
      }
      CarefulStep(b, ops[0]);
      StaysRightExactly(b, ops[0]);
      CarefulRunsCountRight(Apply(b, ops[0]), ops[1..]);
    }
  }

  lemma OwnedIsKept(b: Books)
    requires Consistent(b)
    ensures b.owned <= b.ledger.conns
  {
  }

  /** While the counter is right it is lowered only from a positive value: it never wraps. */
  lemma RightNeverWraps(b: Books)
    requires Right(b) && Enabled(b, CountDown)
    ensures Apply(b, CountDown).ledger.nums == b.ledger.nums - 1
  {
  }

  /** The shortest run after which the counter is wrong: a client that another thread removes stays counted. */
  lemma WithdrawnStaysCounted(fd: Fd)
    ensures var ops := [Admit(fd), Insert(fd), Withdraw(fd)];
            && Legal(START, ops)
            && After(START, ops).ledger == Ledger(1, {}) && Tally(After(START, ops)) == 0
  {
    var ops := [Admit(fd), Insert(fd), Withdraw(fd)];
    var b1 := Apply(START, Admit(fd));
    var b2 := Apply(b1, Insert(fd));
    var b3 := Apply(b2, Withdraw(fd));
    assert ops[1..] == [Insert(fd), Withdraw(fd)] && ops[1..][1..] == [Withdraw(fd)];
    assert b1.joining == {fd} && b2.joining == {} && b2.ledger.conns == {fd} && b3.ledger.conns == {};
    assert b2.owned == {fd} && b3.owned == {};
    assert Legal(b2, [Withdraw(fd)]) && After(b2, [Withdraw(fd)]) == b3;
    assert Legal(b1, ops[1..]) && After(b1, ops[1..]) == b3;
  }

  /** A number that the manager still has is not inserted: the new client is counted and never found. */
  lemma RefusedInsertionStaysCounted(fd: Fd)
    ensures var ops := [InsertOther(fd), Admit(fd), Insert(fd)];
            && Legal(START, ops)
            && After(START, ops).ledger == Ledger(1, {fd}) && Tally(After(START, ops)) == 0
  {
    var ops := [InsertOther(fd), Admit(fd), Insert(fd)];
    var b1 := Apply(START, InsertOther(fd));
    var b2 := Apply(b1, Admit(fd));
    var b3 := Apply(b2, Insert(fd));
    assert ops[1..] == [Admit(fd), Insert(fd)] && ops[1..][1..] == [Insert(fd)];
    assert b1.joining == {} && b2.joining == {fd} && b3.joining == {} && b3.owned == {};
    assert b2.ledger.conns == {fd} && b3.ledger.conns == {fd};
    assert Legal(b2, [Insert(fd)]) && After(b2, [Insert(fd)]) == b3;
    assert Legal(b1, ops[1..]) && After(b1, ops[1..]) == b3;
  }

  /**
  Two slips can cancel: a client that another thread removes while its failing
  event is in hand here is counted off after all.
  */
  lemma WithdrawnInHandIsCountedOff(e: EpollEvent)
    requires EndsThread(e)
    ensures var b := Books(Ledger(1, {e.fd}), {e.fd}, {}, Idle);
            var ops := [Report(e), Withdraw(e.fd), Remove, CountDown];
            Right(b) && Legal(b, ops) && !Orderly(b, ops) && After(b, ops) == START.(place := Ended)
  {
    hide Legal, After, Orderly;
    var b := Books(Ledger(1, {e.fd}), {e.fd}, {}, Idle);
    var b1 := Apply(b, Report(e));
    var b2 := Apply(b1, Withdraw(e.fd));
    assert b2 == Books(Ledger(1, {}), {}, {}, Removing(e, NeitherHalf));
    RemoveAndCount(b2);
    var ops := [Report(e), Withdraw(e.fd), Remove, CountDown];
    assert ops[1..] == [Withdraw(e.fd), Remove, CountDown] && ops[1..][1..] == [Remove, CountDown];
    StartsWith(b1, Withdraw(e.fd), ops[1..]);
    StartsWith(b, Report(e), ops);
  }

  lemma StartsWith(b: Books, op: Operation, ops: seq<Operation>)
    requires |ops| > 0 && ops[0] == op && Enabled(b, op) && Legal(Apply(b, op), ops[1..])
    ensures Legal(b, ops) && After(b, ops) == After(Apply(b, op), ops[1..])
    ensures Orderly(b, ops) <==> !Slips(b, op) && Orderly(Apply(b, op), ops[1..])
  {
  }

  // --------------------------------------------------------- one event, at most two counts

  function CountDowns(ops: seq<Operation>): nat
    decreases |ops|
  {
    if |ops| == 0 then 0 else One(ops[0].CountDown?) + CountDowns(ops[1..])
  }

  /** Once an event without readiness has ended the thread it counts nothing off any more. */
  lemma {:induction false} EndedCountsNothing(b: Books, ops: seq<Operation>)
    requires Legal(b, ops) && b.place.Ended?
    ensures After(b, ops).place.Ended? && CountDowns(ops) == 0
    decreases |ops|
  {
    if |ops| != 0 {
      EndedCountsNothing(Apply(b, ops[0]), ops[1..]);
    }
  }

  /** Some lookup of the run finds its connection, whose send then fails. */
  ghost predicate FailsToSend(b: Books, ops: seq<Operation>)
    requires Legal(b, ops)
    decreases |ops|
  {
    |ops| != 0
    && ((ops[0].Look? && SendFails(b.ledger, b.place.e)) || FailsToSend(Apply(b, ops[0]), ops[1..]))
  }

  /** The rest of one event: nothing new is reported, and the thread comes to the end of it. */
  ghost predicate Finishes(b: Books, ops: seq<Operation>) {
    && Legal(b, ops)
    && (forall op :: op in ops ==> !op.Report?)
    && (After(b, ops).place.Idle? || After(b, ops).place.Ended?)
  }

  predicate WillLook(p: Place) {
    p.Looking? || ((p.Removing? || p.Counting?) && p.h.ReadHalf?)
  }

  lemma {:induction false} NoMoreLooks(b: Books, ops: seq<Operation>)
    requires Finishes(b, ops) && !WillLook(b.place)
    ensures !FailsToSend(b, ops)
    decreases |ops|
  {
    if |ops| != 0 {
      assert !ops[0].Report?;
      NoMoreLooks(Apply(b, ops[0]), ops[1..]);
    }
  }

  lemma {:induction false} CountDownsLeft(b: Books, ops: seq<Operation>)
    requires Finishes(b, ops)
    ensures CountDowns(ops) == One(b.place.Removing? || b.place.Counting?) + One(FailsToSend(b, ops))
    decreases |ops|
  {
    if |ops| != 0 {
      var op, c := ops[0], Apply(b, ops[0]);
      assert !op.Report?;
      CountDownsLeft(c, ops[1..]);
      if !WillLook(c.place) {
        NoMoreLooks(c, ops[1..]);
      }
    }
  }

  /**
  How often one event lowers the counter, whatever the other threads do
  meanwhile: once if its read fails or it has neither readiness, and once if its
  lookup finds a connection whose send fails.
  */
  lemma DecrementsOfOneEvent(b: Books, e: EpollEvent, ops: seq<Operation>)
    requires b.place.Idle? && Finishes(Apply(b, Report(e)), ops)
    ensures CountDowns(ops)
            == One(ReadFails(e) || EndsThread(e)) + One(FailsToSend(Apply(b, Report(e)), ops))
  {
    CountDownsLeft(Apply(b, Report(e)), ops);
  }

  predicate InsertedAnew(fd: Fd, ops: seq<Operation>) {
    Insert(fd) in ops || InsertOther(fd) in ops
  }

  /** Once removed, a connection is found again only if the same number is inserted anew. */
  lemma {:induction false} FoundAgainOnlyIfInserted(b: Books, ops: seq<Operation>, fd: Fd)
    requires Finishes(b, ops) && fd !in b.ledger.conns && !InsertedAnew(fd, ops)
    requires !b.place.Idle? && !b.place.Ended? ==> b.place.e.fd == fd
    ensures !FailsToSend(b, ops)
    decreases |ops|
  {
    if |ops| != 0 {
      assert ops[0] in ops && !ops[0].Report?;
      FoundAgainOnlyIfInserted(Apply(b, ops[0]), ops[1..], fd);
    }
  }

  lemma {:induction false} RemovedFirst(b: Books, ops: seq<Operation>)
    requires Finishes(b, ops) && b.place.Removing? && !InsertedAnew(b.place.e.fd, ops)
    ensures !FailsToSend(b, ops)
    decreases |ops|
  {
    if |ops| != 0 {
      var c := Apply(b, ops[0]);
      assert ops[0] in ops && !ops[0].Report?;
      if ops[0].Remove? {
        FoundAgainOnlyIfInserted(c, ops[1..], b.place.e.fd);
      } else {
        RemovedFirst(c, ops[1..]);
      }
    }
  }

  /**
  Unless its number is inserted anew between its two halves, for this client
  thread or another one, one event lowers the counter at most once, even if both
  its read and its write would fail.
  */
  lemma OneDecrementAtMost(b: Books, e: EpollEvent, ops: seq<Operation>)
    requires b.place.Idle? && Finishes(Apply(b, Report(e)), ops)
    ensures CountDowns(ops) <= 2
    ensures CountDowns(ops) == 2 ==> ReadFails(e) && e.epollout && !e.sendOk && InsertedAnew(e.fd, ops)
  {
    hide Legal, After, FailsToSend;
    var c := Apply(b, Report(e));
    DecrementsOfOneEvent(b, e, ops);
    if FailsToSend(c, ops) {
      if !WillLook(c.place) {
        NoMoreLooks(c, ops);
      } else {
        SendFailureIsThisEvents(c, ops, e);
        if c.place.Removing? && !InsertedAnew(e.fd, ops) {
          RemovedFirst(c, ops);
        }
      }
    }
  }

  /** Whose send it is that fails. */
  lemma {:induction false} SendFailureIsThisEvents(b: Books, ops: seq<Operation>, e: EpollEvent)
    requires Finishes(b, ops) && FailsToSend(b, ops)
    requires WillLook(b.place) && b.place.e == e && (b.place.Looking? ==> TriesToWrite(e))
    ensures !e.sendOk && TriesToWrite(e)
    decreases |ops|
  {
    assert ops[0] in ops && !ops[0].Report?;
    if !(ops[0].Look? && SendFails(b.ledger, e)) {
      var c := Apply(b, ops[0]);
      if WillLook(c.place) {
        SendFailureIsThisEvents(c, ops[1..], e);
      } else {
        NoMoreLooks(c, ops[1..]);
      }
    }
  }

  // ------------------------------------------------------ the loop as a piece of a run

  /** The steps of one event that nobody disturbs. */
  function Steps(l: Ledger, e: EpollEvent): seq<Operation> {
    if EndsThread(e) then [Report(e), Remove, CountDown]
    else if ReadFails(e) then [Report(e), Remove, CountDown] + LookSteps(Lose(l, e.fd), e)
    else [Report(e)] + LookSteps(l, e)
  }

  function LookSteps(l: Ledger, e: EpollEvent): seq<Operation> {
    if !TriesToWrite(e) then [] else if SendFails(l, e) then [Look, Remove, CountDown] else [Look]
  }

  /** The steps of the events that the loop gets to, up to and including one that ends the thread. */
  function Handled(l: Ledger, events: seq<EpollEvent>): seq<Operation>
    decreases |events|
  {
    if |events| == 0 then []
    else if EndsThread(events[0]) then Steps(l, events[0])
    else Steps(l, events[0]) + Handled(AfterEvent(l, events[0]), events[1..])
  }

  lemma {:induction false} AfterAppend(b: Books, x: seq<Operation>, y: seq<Operation>)
    requires Legal(b, x) && Legal(After(b, x), y)
    ensures Legal(b, x + y) && After(b, x + y) == After(After(b, x), y)
    decreases |x|
  {
    hide Enabled, Apply;
    if |x| == 0 {
      assert x + y == y;
    } else {
      assert (x + y)[1..] == x[1..] + y;
      AfterAppend(Apply(b, x[0]), x[1..], y);
    }
  }

  /** What is left of the books when nobody but this thread has taken keys out of the manager. */
  function Left(b: Books, l: Ledger, p: Place): Books {
    Books(l, b.owned * l.conns, b.joining, p)
  }

  lemma RemoveAndCount(b: Books)
    requires b.place.Removing? && b.owned <= b.ledger.conns
    ensures Legal(b, [Remove, CountDown])
    ensures After(b, [Remove, CountDown])
            == Left(b, Lose(b.ledger, b.place.e.fd), AfterCount(b.place.e, b.place.h))
  {
    var c := Apply(b, Remove);
    assert c.owned == b.owned * c.ledger.conns;
    assert [Remove, CountDown][1..] == [CountDown];
    assert Legal(c, [CountDown]) && After(c, [CountDown]) == Apply(c, CountDown);
  }

  lemma LookUndisturbed(b: Books, e: EpollEvent)
    requires b.place == AfterReadHalf(e) && b.owned <= b.ledger.conns
    ensures Legal(b, LookSteps(b.ledger, e))
    ensures After(b, LookSteps(b.ledger, e))
            == Left(b, if TriesToWrite(e) && SendFails(b.ledger, e) then Lose(b.ledger, e.fd) else b.ledger, Idle)
  {
    if TriesToWrite(e) {
      var c := Apply(b, Look);
      if SendFails(b.ledger, e) {
        RemoveAndCount(c);
        assert LookSteps(b.ledger, e)[1..] == [Remove, CountDown];
      } else {
        assert LookSteps(b.ledger, e)[1..] == [];
      }
    }
  }

  lemma EventUndisturbed(b: Books, e: EpollEvent)
    requires b.place.Idle? && b.owned <= b.ledger.conns
    ensures Legal(b, Steps(b.ledger, e))
    ensures After(b, Steps(b.ledger, e))
            == Left(b, AfterEvent(b.ledger, e), if EndsThread(e) then Ended else Idle)
    ensures AfterEvent(b.ledger, e).conns <= b.ledger.conns
  {
    hide Legal, After, LookSteps;
    var c := Apply(b, Report(e));
    ReportFirst(b, e);
    if EndsThread(e) {
      RemoveAndCount(c);
      AfterAppend(b, [Report(e)], [Remove, CountDown]);
      assert [Report(e)] + [Remove, CountDown] == Steps(b.ledger, e);
    } else if ReadFails(e) {
      RemoveAndCount(c);
      AfterAppend(b, [Report(e)], [Remove, CountDown]);
      var d := After(c, [Remove, CountDown]);
      LookUndisturbed(d, e);
      AfterAppend(b, [Report(e)] + [Remove, CountDown], LookSteps(d.ledger, e));
      assert [Report(e)] + [Remove, CountDown] == [Report(e), Remove, CountDown];
    } else {
      LookUndisturbed(c, e);
      AfterAppend(b, [Report(e)], LookSteps(b.ledger, e));
    }
  }

  lemma ReportFirst(b: Books, e: EpollEvent)
    requires b.place.Idle?
    ensures Legal(b, [Report(e)]) && After(b, [Report(e)]) == Apply(b, Report(e))
  {
    assert [Report(e)][1..] == [];
  }

  /** One batch of the loop, run without interference, is that piece of a run. */
  lemma {:induction false} BatchIsOperations(b: Books, events: seq<EpollEvent>)
    requires b.place.Idle? && b.owned <= b.ledger.conns
    ensures Legal(b, Handled(b.ledger, events))
    ensures AfterBatch(b.ledger, events).conns <= b.ledger.conns
    ensures After(b, Handled(b.ledger, events))
            == Left(b, AfterBatch(b.ledger, events),
                    if exists k :: 0 <= k < |events| && EndsThread(events[k]) then Ended else Idle)
    decreases |events|
  {
    hide AfterEvent, Steps, EndsThread, Enabled, Apply;
    if |events| != 0 {
      var e := events[0];
      EventUndisturbed(b, e);
      if !EndsThread(e) {
        var c := After(b, Steps(b.ledger, e));
        BatchIsOperations(c, events[1..]);
        AfterAppend(b, Steps(b.ledger, e), Handled(c.ledger, events[1..]));
        assert forall k :: 0 <= k < |events| - 1 ==> events[1..][k] == events[k + 1];
        SameEnd(events);
      }
    }
  }

  lemma SameEnd(events: seq<EpollEvent>)
    requires |events| > 0 && !EndsThread(events[0])
    ensures (exists k :: 0 <= k < |events| && EndsThread(events[k]))
            <==> (exists k :: 0 <= k < |events[1..]| && EndsThread(events[1..][k]))
  {
    if k :| 0 <= k < |events| && EndsThread(events[k]) {
      assert EndsThread(events[1..][k - 1]);
    }
    if k :| 0 <= k < |events[1..]| && EndsThread(events[1..][k]) {
      assert EndsThread(events[k + 1]);
    }
  }

  // --------------------------------------------------------------- one event, two counts

  /** A number freed by the read half and accepted again before the write half makes one event count twice. */
  lemma ReusedNumberCountsTwice(e: EpollEvent)
    requires ReadFails(e) && e.epollout && !e.sendOk
    ensures var b := Books(Ledger(1, {e.fd}), {e.fd}, {}, Idle);
            var ops := [Remove, CountDown, Admit(e.fd), Insert(e.fd), Look, Remove, CountDown];
            && Finishes(Apply(b, Report(e)), ops) && CountDowns(ops) == 2
            && After(Apply(b, Report(e)), ops) == START
  {
    hide Legal, After;
    var b := Books(Ledger(1, {e.fd}), {e.fd}, {}, Idle);
    var b1 := Apply(b, Report(e));
    RemoveAndCount(b1);
    var b2 := After(b1, [Remove, CountDown]);
    AdmitAndInsert(b2, e.fd);
    var b3 := After(b2, [Admit(e.fd), Insert(e.fd)]);
    LookUndisturbed(b3, e);
    var look := [Look, Remove, CountDown];
    assert LookSteps(b3.ledger, e) == look;
    AfterAppend(b1, [Remove, CountDown], [Admit(e.fd), Insert(e.fd)]);
    AfterAppend(b1, [Remove, CountDown] + [Admit(e.fd), Insert(e.fd)], look);
    var ops := [Remove, CountDown, Admit(e.fd), Insert(e.fd), Look, Remove, CountDown];
    assert [Remove, CountDown] + [Admit(e.fd), Insert(e.fd)] + look == ops;
    CountsTwice(e.fd);
  }

  lemma CountsTwice(fd: Fd)
    ensures CountDowns([Remove, CountDown, Admit(fd), Insert(fd), Look, Remove, CountDown]) == 2
  {
    assert CountDowns([Look, Remove, CountDown]) == 1;
    assert CountDowns([Admit(fd), Insert(fd), Look, Remove, CountDown]) == 1;
  }

  lemma AdmitAndInsert(b: Books, fd: Fd)
    requires fd !in b.joining && fd !in b.ledger.conns
    ensures Legal(b, [Admit(fd), Insert(fd)])
    ensures After(b, [Admit(fd), Insert(fd)])
            == Books(Ledger(Increment(b.ledger.nums), b.ledger.conns + {fd}), b.owned + {fd}, b.joining, b.place)
  {
    var c := Apply(b, Admit(fd));
    assert [Admit(fd), Insert(fd)][1..] == [Insert(fd)];
    assert Legal(c, [Insert(fd)]) && After(c, [Insert(fd)]) == Apply(c, Insert(fd));
    assert c.joining - {fd} == b.joining;
  }

  /**
  The freed number may as well go to another client thread. The lookup finds that
  thread's connection, the event counts it off here, and a client of this thread
  that is still connected is no longer counted.
  */
  lemma NumberOfAnotherThreadCountsTwice(e: EpollEvent, fd: Fd)
    requires ReadFails(e) && e.epollout && !e.sendOk && fd != e.fd
    ensures var b := Books(Ledger(2, {e.fd, fd}), {e.fd, fd}, {}, Idle);
            var ops := [Remove, CountDown, InsertOther(e.fd), Look, Remove, CountDown];
            && Right(b) && Finishes(Apply(b, Report(e)), ops) && CountDowns(ops) == 2
            && After(Apply(b, Report(e)), ops) == Books(Ledger(0, {fd}), {fd}, {}, Idle)
            && !Right(After(Apply(b, Report(e)), ops))
  {
    hide Legal, After;
    var b := Books(Ledger(2, {e.fd, fd}), {e.fd, fd}, {}, Idle);
    var b1 := Apply(b, Report(e));
    RemoveAndCount(b1);
    var b2 := After(b1, [Remove, CountDown]);
    assert b2.ledger == Ledger(1, {fd}) && b2.owned == {fd};
    InsertForAnother(b2, e.fd);
    var b3 := After(b2, [InsertOther(e.fd)]);
    LookUndisturbed(b3, e);
    var look := [Look, Remove, CountDown];
    assert LookSteps(b3.ledger, e) == look;
    var b4 := After(b3, look);
    assert b4.ledger.conns == {fd} == b4.owned;
    AfterAppend(b1, [Remove, CountDown], [InsertOther(e.fd)]);
    AfterAppend(b1, [Remove, CountDown] + [InsertOther(e.fd)], look);
    var ops := [Remove, CountDown, InsertOther(e.fd), Look, Remove, CountDown];
    assert [Remove, CountDown] + [InsertOther(e.fd)] + look == ops;
    assert CountDowns(ops) == 1 + CountDowns([InsertOther(e.fd)] + look) by {
      assert ops[1..][1..] == [InsertOther(e.fd)] + look;
    }
    assert CountDowns([InsertOther(e.fd)] + look) == 1;
  }

  lemma InsertForAnother(b: Books, fd: Fd)
    ensures Legal(b, [InsertOther(fd)]) && After(b, [InsertOther(fd)]) == Apply(b, InsertOther(fd))
  {
    assert [InsertOther(fd)][1..] == [];
  }
}
