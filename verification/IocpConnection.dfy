/**
One IOCP connection as an object: its receive flag, its queue of outstanding
send contexts, and the counts its completion handlers act on.
*/
module IocpConnection {

  class IocpContext {
    /** Whether `hEvent` is something other than INVALID_HANDLE_VALUE. */
    var eventOpen: bool

    constructor ()
      ensures !eventOpen
    {
      eventOpen := false;
    }
  }

  class SendQueue {
    var sendContextMap: map<IocpContext, IocpContext>

    /** Every entry maps a context's address to that context. */
    ghost predicate Valid()
      reads this
    {
      forall c :: c in sendContextMap ==> sendContextMap[c] == c
    }

    ghost function Contexts(): set<IocpContext>
      reads this
    {
      sendContextMap.Keys
    }

    constructor ()
      ensures Valid() && Contexts() == {}
    {
      sendContextMap := map[];
    }

    /** `inserted` is what the source asserts. */
    method AddSendContext(sendContext: IocpContext) returns (inserted: bool)
      requires Valid()
      modifies this
      ensures Valid() && Contexts() == old(Contexts()) + {sendContext}
      ensures inserted <==> sendContext !in old(Contexts())
    {
      inserted := sendContext !in sendContextMap;
      if inserted {
        sendContextMap := sendContextMap[sendContext := sendContext];
      }
    }

    method RemoveSendContext(sendContext: IocpContext) returns (left: nat)
      requires Valid()
      modifies this
      ensures Valid() && Contexts() == old(Contexts()) - {sendContext}
      ensures left == |Contexts()|
    {
      sendContextMap := sendContextMap - {sendContext};
      left := |sendContextMap|;
    }

    method NumOutstandingContext() returns (n: nat)
      requires Valid()
      ensures n == |Contexts()|
    {
      n := |sendContextMap|;
    }

    /** Closes the events and keeps the contexts: the queue is not emptied. */
    method CloseAllSends()
      requires Valid()
      modifies Contexts()
      ensures Valid() && Contexts() == old(Contexts())
      ensures forall c :: c in Contexts() ==> !c.eventOpen
    {
      var toVisit := sendContextMap.Keys;
      while toVisit != {}
        invariant toVisit <= Contexts()
        invariant forall c :: c in Contexts() - toVisit ==> !c.eventOpen
        decreases |toVisit|
      {
        var itr :| itr in toVisit;
        if sendContextMap[itr].eventOpen {
          sendContextMap[itr].eventOpen := false;
        }
        toVisit := toVisit - {itr};
      }
    }
  }

  class Connection {
    var rcvClosed: int
    const rcvContext: IocpContext
    const sendQueue: SendQueue

    ghost predicate Valid()
      reads this, sendQueue
    {
      (rcvClosed == 0 || rcvClosed == 1) && sendQueue.Valid()
    }

    ghost predicate Outstanding()
      reads this, sendQueue
    {
      rcvClosed == 0 || sendQueue.Contexts() != {}
    }

    constructor ()
      ensures Valid() && rcvClosed == 0 && sendQueue.Contexts() == {}
      ensures fresh(sendQueue) && fresh(rcvContext)
    {
      rcvClosed := 0;
      rcvContext := new IocpContext();
      sendQueue := new SendQueue();
    }

    /** The new context is in the queue, and the insertion assert cannot fire. */
    method CreateSendContext() returns (c: IocpContext)
      requires Valid()
      modifies sendQueue
      ensures Valid() && fresh(c)
      ensures sendQueue.Contexts() == old(sendQueue.Contexts()) + {c}
    {
      c := new IocpContext();
      var inserted := sendQueue.AddSendContext(c);
      assert inserted;
    }

    method HasOutstandingContext() returns (outstanding: bool)
      requires Valid()
      ensures outstanding <==> Outstanding()
    {
      if rcvClosed == 0 {
        return true;
      }
      var n := sendQueue.NumOutstandingContext();
      if n > 0 {
        return true;
      }
      return false;
    }

    /** Only the first caller is told that it closed the receive, and only it touches the event. */
    method CloseRcvContext() returns (first: bool)
      requires Valid()
      modifies this, rcvContext
      ensures Valid() && rcvClosed == 1
      ensures first <==> old(rcvClosed) == 0
      ensures rcvContext.eventOpen == (if first then false else old(rcvContext.eventOpen))
    {
      var was := rcvClosed;
      rcvClosed := 1;
      if was == 0 {
        if rcvContext.eventOpen {
          rcvContext.eventOpen := false;
        }
        return true;
      }
      return false;
    }
  }

  // --------------------------------------------------------- counting completions

  /** What `RemoveSendContext` returns to each caller when contexts go in the given order. */
  function RemovalCounts<T>(queue: set<T>, order: seq<T>): (r: seq<nat>)
    ensures |r| == |order|
    decreases |order|
  {
    if |order| == 0 then []
    else [|queue - {order[0]}|] + RemovalCounts(queue - {order[0]}, order[1..])
  }

  /** `order` names every context of the queue once. */
  ghost predicate Enumerates<T>(order: seq<T>, queue: set<T>) {
    && (forall i, j :: 0 <= i < j < |order| ==> order[i] != order[j])
    && queue == (set c | c in order)
  }

  /**
  In whatever order N queued sends complete, the completions are told N-1 down
  to 0, each once: exactly one of them, the last, sees an empty queue.
  */
  lemma {:induction false} CompletionsCountDown<T>(queue: set<T>, order: seq<T>)
    requires Enumerates(order, queue)
    ensures |order| == |queue|
    ensures forall i :: 0 <= i < |order| ==> RemovalCounts(queue, order)[i] == |queue| - 1 - i
    decreases |order|
  {
    if |order| == 0 {
      assert queue == {};
    } else {
      var rest := queue - {order[0]};
      assert order[0] in queue;
      forall c
        ensures c in rest <==> c in order[1..]
      {
        if c in order[1..] {
          var j :| 0 <= j < |order| - 1 && order[1..][j] == c;
          assert order[j + 1] == c && order[0] != order[j + 1];
        }
      }
      CompletionsCountDown(rest, order[1..]);
    }
  }
}
