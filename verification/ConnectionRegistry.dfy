/**
Connection ids and the map they key: an id is drawn by a locked increment and an
unlocked read, and the manager lists what was added and not removed.
*/
module ConnectionRegistry {

  const UINT64_SIZE: nat := 0x1_0000_0000_0000_0000

  class Connection {
    const id: nat

    constructor (cid: nat)
      ensures id == cid
    {
      id := cid;
    }
  }

  ghost predicate Ascending(s: seq<nat>) {
    forall i, j :: 0 <= i < j < |s| ==> s[i] < s[j]
  }

  ghost predicate IsLeast(k: nat, s: set<nat>) {
    k in s && forall j :: j in s ==> k <= j
  }

  /** `listed` holds the keys visited so far, in order, and all others lie above them. */
  ghost predicate Listing(listed: seq<nat>, keys: set<nat>, toVisit: set<nat>) {
    && toVisit <= keys
    && Ascending(listed)
    && (set id | id in listed) == keys - toVisit
    && (forall id, next :: id in listed && next in toVisit ==> id < next)
    && |listed| + |toVisit| == |keys|
  }

  lemma AscendingSnoc(listed: seq<nat>, k: nat)
    requires Ascending(listed) && forall id :: id in listed ==> id < k
    ensures Ascending(listed + [k])
  {
    forall i, j | 0 <= i < j < |listed| + 1
      ensures (listed + [k])[i] < (listed + [k])[j]
    {
      assert (listed + [k])[i] in listed;
    }
  }

  lemma SetSnoc(listed: seq<nat>, k: nat, keys: set<nat>, toVisit: set<nat>)
    requires (set id | id in listed) == keys - toVisit && k in toVisit && toVisit <= keys
    ensures (set id | id in listed + [k]) == keys - (toVisit - {k})
  {
    assert (set id | id in listed + [k]) == (set id | id in listed) + {k};
    assert keys - (toVisit - {k}) == (keys - toVisit) + {k};
  }

  lemma ListNext(listed: seq<nat>, keys: set<nat>, toVisit: set<nat>, k: nat)
    requires Listing(listed, keys, toVisit) && IsLeast(k, toVisit)
    ensures Listing(listed + [k], keys, toVisit - {k})
  {
    hide Ascending;
    AscendingSnoc(listed, k);
    SetSnoc(listed, k, keys, toVisit);
    forall id, next | id in listed + [k] && next in toVisit - {k}
      ensures id < next
    {
      assert next in toVisit && k <= next;
      assert id in listed || id == k;
    }
  }

  class ConnectionManager {
    var connMap: map<nat, Connection>

    ghost predicate Valid()
      reads this
    {
      forall id :: id in connMap ==> connMap[id].id == id
    }

    constructor ()
      ensures Valid() && connMap == map[]
    {
      connMap := map[];
    }

    /** Insertion never replaces; `inserted` is what the source asserts. */
    method AddConnection(client: Connection) returns (inserted: bool)
      requires Valid()
      modifies this
      ensures Valid()
      ensures inserted <==> client.id !in old(connMap)
      ensures connMap == if inserted then old(connMap)[client.id := client] else old(connMap)
    {
      inserted := client.id !in connMap;
      if inserted {
        connMap := connMap[client.id := client];
      }
    }

    method RemoveConnection(clientId: nat) returns (removed: bool)
      requires Valid()
      modifies this
      ensures Valid()
      ensures removed <==> clientId in old(connMap)
      ensures connMap == old(connMap) - {clientId}
    {
      removed := clientId in connMap;
      connMap := connMap - {clientId};
    }

    method GetConnection(clientId: nat) returns (c: Connection?)
      requires Valid()
      ensures c != null <==> clientId in connMap
      ensures c != null ==> c == connMap[clientId] && c.id == clientId
    {
      if clientId in connMap {
        c := connMap[clientId];
      } else {
        c := null;
      }
    }

    /** Appends every registered id once, in ascending order, and keeps what was there. */
    method GetAllConnectionIds(vIds: seq<nat>) returns (outIds: seq<nat>)
      ensures |outIds| == |vIds| + |connMap| && outIds[..|vIds|] == vIds
      ensures Ascending(outIds[|vIds|..])
      ensures (set id | id in outIds[|vIds|..]) == connMap.Keys
    {
      hide Listing, IsLeast;
      ghost var listed: seq<nat> := [];
      outIds := vIds;
      var toVisit := connMap.Keys;
      NothingListed(connMap.Keys);
      while toVisit != {}
        invariant outIds == vIds + listed
        invariant Listing(listed, connMap.Keys, toVisit)
        decreases |toVisit|
      {
        var itr := Next(toVisit);
        ListNext(listed, connMap.Keys, toVisit, itr);
        listed := listed + [itr];
        outIds := outIds + [itr];
        toVisit := toVisit - {itr};
      }
      AllListed(listed, connMap.Keys);
      assert outIds[|vIds|..] == listed;
    }

    /** The next key in the map's order. */
    static method Next(toVisit: set<nat>) returns (k: nat)
      requires toVisit != {}
      ensures IsLeast(k, toVisit) && k in toVisit
    {
      k :| k in toVisit;
      var rest := toVisit - {k};
      while rest != {}
        invariant rest <= toVisit && k in toVisit
        invariant forall j :: j in toVisit ==> j in rest || k <= j
        decreases |rest|
      {
        var j :| j in rest;
        if j < k {
          k := j;
        }
        rest := rest - {j};
      }
    }
  }

  lemma NothingListed(keys: set<nat>)
    ensures Listing([], keys, keys)
  {
  }

  lemma AllListed(listed: seq<nat>, keys: set<nat>)
    requires Listing(listed, keys, {})
    ensures Ascending(listed) && (set id | id in listed) == keys && |listed| == |keys|
  {
  }

  // ------------------------------------------------------------------- drawing ids

  type Thread = nat

  /** The two halves of a call: the increment under the lock, the read after it. */
  datatype Event = Increment(t: Thread) | Read(t: Thread)

  /** `drawn` counts all increments ever; the counter holds it modulo 2^64. */
  datatype Counter = Counter(drawn: nat, own: map<Thread, nat>)

  predicate Enabled(s: Counter, e: Event) {
    match e
    case Increment(t) => t !in s.own
    case Read(t) => t in s.own
  }

  function Apply(s: Counter, e: Event): Counter {
    match e
    case Increment(t) => Counter(s.drawn + 1, s.own[t := s.drawn + 1])
    case Read(t) => Counter(s.drawn, s.own - {t})
  }

  /** What `GetNextId` returns when it reads in this state. */
  function Result(s: Counter): nat {
    s.drawn % UINT64_SIZE
  }

  ghost predicate Legal(s: Counter, es: seq<Event>)
    decreases |es|
  {
    |es| == 0 || (Enabled(s, es[0]) && Legal(Apply(s, es[0]), es[1..]))
  }

  function After(s: Counter, es: seq<Event>): Counter
    decreases |es|
  {
    if |es| == 0 then s else After(Apply(s, es[0]), es[1..])
  }

  function Increments(es: seq<Event>): nat
    decreases |es|
  {
    if |es| == 0 then 0 else (if es[0].Increment? then 1 else 0) + Increments(es[1..])
  }

  lemma {:induction false} DrawnAfter(s: Counter, es: seq<Event>)
    ensures After(s, es).drawn == s.drawn + Increments(es)
    decreases |es|
  {
    if |es| != 0 {
      DrawnAfter(Apply(s, es[0]), es[1..]);
    }
  }

  lemma {:induction false} IncrementsAppend(a: seq<Event>, b: seq<Event>)
    ensures Increments(a + b) == Increments(a) + Increments(b)
    decreases |a|
  {
    if |a| == 0 {
      assert a + b == b;
    } else {
      assert (a + b)[1..] == a[1..] + b;
      IncrementsAppend(a[1..], b);
    }
  }

  function Reads(es: seq<Event>): nat
    decreases |es|
  {
    if |es| == 0 then 0 else (if es[0].Read? then 1 else 0) + Reads(es[1..])
  }

  /** What the calls that end during a run return, in order. */
  function Ids(s: Counter, es: seq<Event>): seq<nat>
    decreases |es|
  {
    if |es| == 0 then []
    else (if es[0].Read? then [Result(s)] else []) + Ids(Apply(s, es[0]), es[1..])
  }

  /** The call that reads at position `p` of the run is the one with that many reads before it. */
  lemma {:induction false} IdAt(s: Counter, es: seq<Event>, p: nat)
    requires p < |es| && es[p].Read?
    ensures Reads(es[..p]) < |Ids(s, es)|
    ensures Ids(s, es)[Reads(es[..p])] == (s.drawn + Increments(es[..p])) % UINT64_SIZE
    decreases |es|
  {
    if p == 0 {
      assert es[..0] == [];
    } else {
      assert es[..p][1..] == es[1..][..p - 1] && es[..p][0] == es[0];
      IdAt(Apply(s, es[0]), es[1..], p - 1);
    }
  }

  /** Whoever has incremented and not yet read did so at or below the counter it will read. */
  ghost predicate OwnBelow(s: Counter) {
    forall t :: t in s.own ==> s.own[t] <= s.drawn
  }

  lemma {:induction false} OwnAlwaysBelow(s: Counter, es: seq<Event>, p: nat)
    requires p < |es| && Legal(s, es) && OwnBelow(s)
    ensures OwnBelow(After(s, es[..p])) && Enabled(After(s, es[..p]), es[p])
    decreases |es|
  {
    if p == 0 {
      assert es[..0] == [];
    } else {
      assert es[..p][1..] == es[1..][..p - 1] && es[..p][0] == es[0];
      OwnAlwaysBelow(Apply(s, es[0]), es[1..], p - 1);
    }
  }

  const START := Counter(0, map[])

  /** `n` is what the last increment of this caller made of the counter. */
  ghost predicate IsOwn(es: seq<Event>, t: Thread, n: nat) {
    exists i :: 0 <= i < |es| && es[i] == Increment(t) && Increment(t) !in es[i + 1..] && n == Increments(es[..i + 1])
  }

  lemma {:induction false} LegalPrefix(s: Counter, es: seq<Event>, p: nat)
    requires Legal(s, es) && p <= |es|
    ensures Legal(s, es[..p])
    decreases |es|
  {
    if p != 0 {
      assert es[..p][1..] == es[1..][..p - 1];
      LegalPrefix(Apply(s, es[0]), es[1..], p - 1);
    }
  }

  lemma {:induction false} AfterSnoc(s: Counter, es: seq<Event>, e: Event)
    ensures After(s, es + [e]) == Apply(After(s, es), e)
    ensures Legal(s, es + [e]) ==> Enabled(After(s, es), e)
    decreases |es|
  {
    if |es| == 0 {
      assert [e][1..] == [] && es + [e] == [e];
    } else {
      assert (es + [e])[1..] == es[1..] + [e];
      AfterSnoc(Apply(s, es[0]), es[1..], e);
    }
  }

  lemma IsOwnKept(es: seq<Event>, e: Event, t: Thread, n: nat)
    requires IsOwn(es, t, n) && e != Increment(t)
    ensures IsOwn(es + [e], t, n)
  {
    var i :| 0 <= i < |es| && es[i] == Increment(t) && Increment(t) !in es[i + 1..] && n == Increments(es[..i + 1]);
    var more := es + [e];
    assert more[i] == Increment(t) && more[..i + 1] == es[..i + 1] && more[i + 1..] == es[i + 1..] + [e];
  }

  lemma {:induction false} OwnIsOwn(es: seq<Event>, t: Thread)
    requires Legal(START, es) && t in After(START, es).own
    ensures IsOwn(es, t, After(START, es).own[t])
    decreases |es|
  {
    if |es| != 0 {
      var before, e := es[..|es| - 1], es[|es| - 1];
      assert es == before + [e];
      AfterSnoc(START, before, e);
      LegalPrefix(START, es, |es| - 1);
      if e == Increment(t) {
        DrawnAfter(START, before);
        IncrementsAppend(before, [e]);
        assert es[|es| - 1] == Increment(t) && es[..|es| - 1 + 1] == es && es[|es|..] == [];
      } else {
        OwnIsOwn(before, t);
        IsOwnKept(before, e, t, After(START, before).own[t]);
      }
    }
  }

  function Calls(es: seq<Event>, t: Thread): int
    decreases |es|
  {
    if |es| == 0 then 0
    else (if es[0] == Increment(t) then 1 else if es[0] == Read(t) then -1 else 0) + Calls(es[1..], t)
  }

  /** Each caller's increments and reads take turns: it is never more than one increment ahead. */
  lemma {:induction false} CallsTakeTurns(s: Counter, es: seq<Event>, t: Thread)
    requires Legal(s, es)
    ensures Calls(es, t) == (if t in After(s, es).own then 1 else 0) - if t in s.own then 1 else 0
    decreases |es|
  {
    if |es| != 0 {
      CallsTakeTurns(Apply(s, es[0]), es[1..], t);
    }
  }

  /**
  In every interleaving a call returns the number of increments made before its
  read, modulo 2^64; until the counter wraps that is no less than what its own
  increment produced.
  */
  lemma ReadsAtLeastOwn(es: seq<Event>, p: nat)
    requires Legal(START, es) && p < |es| && es[p].Read?
    ensures Reads(es[..p]) < |Ids(START, es)|
    ensures var s, id := After(START, es[..p]), Ids(START, es)[Reads(es[..p])];
            && id == Increments(es[..p]) % 0x1_0000_0000_0000_0000
            && es[p].t in s.own && IsOwn(es[..p], es[p].t, s.own[es[p].t])
            && (Increments(es[..p]) < 0x1_0000_0000_0000_0000 ==> s.own[es[p].t] <= id == Increments(es[..p]))
  {
    IdAt(START, es, p);
    OwnAlwaysBelow(START, es, p);
    DrawnAfter(START, es[..p]);
    LegalPrefix(START, es, p);
    OwnIsOwn(es[..p], es[p].t);
  }

  lemma SameRemainder(a: nat, k: nat)
    ensures a % UINT64_SIZE == (a + k) % UINT64_SIZE <==> k % UINT64_SIZE == 0
  {
    var q, r := k / UINT64_SIZE, k % UINT64_SIZE;
    var b := a % UINT64_SIZE;
    assert a + k == UINT64_SIZE * (a / UINT64_SIZE + q) + (b + r);
    if b + r < UINT64_SIZE {
      ModUnique(a + k, a / UINT64_SIZE + q, b + r);
    } else {
      ModUnique(a + k, a / UINT64_SIZE + q + 1, b + r - UINT64_SIZE);
    }
  }

  lemma ModUnique(a: nat, q: nat, r: nat)
    requires a == UINT64_SIZE * q + r && r < UINT64_SIZE
    ensures a % UINT64_SIZE == r
  {
  }

  /**
  Two calls return one id exactly when a multiple of 2^64 increments, such as
  none, lies between their reads: the read outside the lock is enough to hand out
  duplicates.
  */
  lemma IdsCollideExactly(es: seq<Event>, p: nat, q: nat)
    requires Legal(START, es) && p < q < |es| && es[p].Read? && es[q].Read?
    ensures Reads(es[..p]) < |Ids(START, es)| && Reads(es[..q]) < |Ids(START, es)|
    ensures Ids(START, es)[Reads(es[..p])] == Ids(START, es)[Reads(es[..q])]
            <==> Increments(es[p + 1..q]) % 0x1_0000_0000_0000_0000 == 0
  {
    IdAt(START, es, p);
    IdAt(START, es, q);
    assert es[..q] == es[..p] + ([es[p]] + es[p + 1..q]);
    assert ([es[p]] + es[p + 1..q])[1..] == es[p + 1..q];
    IncrementsAppend(es[..p], [es[p]] + es[p + 1..q]);
    SameRemainder(Increments(es[..p]), Increments(es[p + 1..q]));
  }

  /** The shortest run in which two callers are given the same id. */
  lemma TwoCallersOneId()
    ensures var es := [Increment(0), Increment(1), Read(0), Read(1)];
            Legal(START, es) && Ids(START, es) == [2, 2]
  {
    var es := [Increment(0), Increment(1), Read(0), Read(1)];
    var s1 := Apply(START, Increment(0));
    var s2 := Apply(s1, Increment(1));
    var s3 := Apply(s2, Read(0));
    assert es[1..] == [Increment(1), Read(0), Read(1)];
    assert es[1..][1..] == [Read(0), Read(1)];
    assert es[1..][1..][1..] == [Read(1)];
    assert Legal(s3, [Read(1)]) && Ids(s3, [Read(1)]) == [2];
    assert Legal(s2, [Read(0), Read(1)]) && Ids(s2, [Read(0), Read(1)]) == [2, 2];
  }

  /** Calls made one after the other: every read directly follows its own increment. */
  function Serialized(callers: seq<Thread>): seq<Event>
    decreases |callers|
  {
    if |callers| == 0 then [] else [Increment(callers[0]), Read(callers[0])] + Serialized(callers[1..])
  }

  /** Serialized calls, by whichever threads, return consecutive numbers: no id is drawn twice. */
  lemma {:induction false} SerializedIdsAreConsecutive(s: Counter, callers: seq<Thread>)
    requires forall t :: t in callers ==> t !in s.own
    requires s.drawn + |callers| < UINT64_SIZE
    ensures Legal(s, Serialized(callers))
    ensures |Ids(s, Serialized(callers))| == |callers|
    ensures forall i :: 0 <= i < |callers| ==> Ids(s, Serialized(callers))[i] == s.drawn + 1 + i
    decreases |callers|
  {
    if |callers| != 0 {
      var t, rest := callers[0], Serialized(callers[1..]);
      var s1 := Apply(s, Increment(t));
      var s2 := Apply(s1, Read(t));
      var es := Serialized(callers);
      assert es[1..] == [Read(t)] + rest && ([Read(t)] + rest)[1..] == rest;
      SerializedIdsAreConsecutive(s2, callers[1..]);
      assert Ids(s1, [Read(t)] + rest) == [s.drawn + 1] + Ids(s2, rest);
      assert Ids(s, es) == [] + Ids(s1, es[1..]);
    }
  }

  // -------------------------------------------------------- ids and registry together

  datatype Operation = Accept | Drop(id: nat)

  /** Ids handed out so far by serialized accepts. */
  function Accepted(ops: seq<Operation>): nat
    decreases |ops|
  {
    if |ops| == 0 then 0 else Accepted(ops[..|ops| - 1]) + (if ops[|ops| - 1].Accept? then 1 else 0)
  }

  /** The keys of the manager after serialized accepts and removals. */
  function Registered(ops: seq<Operation>): set<nat>
    decreases |ops|
  {
    if |ops| == 0 then {}
    else
      var before := ops[..|ops| - 1];
      match ops[|ops| - 1]
      case Accept => Registered(before) + {(Accepted(before) + 1) % UINT64_SIZE}
      case Drop(id) => Registered(before) - {id}
  }

  /** Until the counter wraps, a serialized accept never finds its id taken. */
  lemma {:induction false} InsertionNeverRefused(ops: seq<Operation>)
    requires Accepted(ops) + 1 < UINT64_SIZE
    ensures (Accepted(ops) + 1) % UINT64_SIZE !in Registered(ops)
    ensures forall id :: id in Registered(ops) ==> 1 <= id <= Accepted(ops)
    decreases |ops|
  {
    if |ops| != 0 {
      InsertionNeverRefused(ops[..|ops| - 1]);
    }
  }

  /** The server's shared data: the id counter and the manager its ids key. */
  class IocpDataBase {
    var currentId: nat
    const connectionManager: ConnectionManager
    /** What has been done so far, one call after the other. */
    ghost var ops: seq<Operation>

    ghost predicate Valid()
      reads this, connectionManager
    {
      && connectionManager.Valid()
      && currentId == Accepted(ops) % UINT64_SIZE
      && connectionManager.connMap.Keys == Registered(ops)
    }

    constructor ()
      ensures Valid() && ops == [] && fresh(connectionManager)
    {
      currentId := 0;
      connectionManager := new ConnectionManager();
      ops := [];
    }

    /** Called by one thread at a time, with the 64-bit wrap-around of the counter. */
    method GetNextId() returns (id: nat)
      modifies this`currentId
      ensures id == currentId == (old(currentId) + 1) % UINT64_SIZE
    {
      currentId := (currentId + 1) % UINT64_SIZE;
      return currentId;
    }

    /**
    The next connection: its id follows the last one drawn, and until the counter
    wraps it goes into the manager without meeting one that is already there.
    */
    method Accept() returns (c: Connection, inserted: bool)
      requires Valid()
      modifies this, connectionManager
      ensures Valid() && ops == old(ops) + [Operation.Accept]
      ensures c.id == (Accepted(old(ops)) + 1) % UINT64_SIZE
      ensures inserted <==> c.id !in Registered(old(ops))
      ensures Accepted(old(ops)) + 1 < 0x1_0000_0000_0000_0000 ==> inserted
      ensures connectionManager.connMap
              == if inserted then old(connectionManager.connMap)[c.id := c] else old(connectionManager.connMap)
    {
      if Accepted(ops) + 1 < UINT64_SIZE {
        InsertionNeverRefused(ops);
      }
      var id := GetNextId();
      c := new Connection(id);
      inserted := connectionManager.AddConnection(c);
      OneMore(ops, Operation.Accept);
      NextRemainder(Accepted(ops));
      ops := ops + [Operation.Accept];
    }

    method Drop(id: nat) returns (removed: bool)
      requires Valid()
      modifies this`ops, connectionManager
      ensures Valid() && ops == old(ops) + [Operation.Drop(id)]
      ensures removed <==> id in Registered(old(ops))
      ensures connectionManager.connMap == old(connectionManager.connMap) - {id}
    {
      removed := connectionManager.RemoveConnection(id);
      OneMore(ops, Operation.Drop(id));
      ops := ops + [Operation.Drop(id)];
    }

    /** The ids that were accepted and not dropped, ascending and once each. */
    method ListIds() returns (ids: seq<nat>)
      requires Valid()
      ensures Ascending(ids) && (set id | id in ids) == Registered(ops)
    {
      ids := connectionManager.GetAllConnectionIds([]);
      assert ids[0..] == ids;
    }
  }

  lemma OneMore(ops: seq<Operation>, op: Operation)
    ensures var more := ops + [op];
            && Accepted(more) == Accepted(ops) + (if op.Accept? then 1 else 0)
            && Registered(more) == match op
                                   case Accept => Registered(ops) + {(Accepted(ops) + 1) % UINT64_SIZE}
                                   case Drop(id) => Registered(ops) - {id}
  {
    assert (ops + [op])[..|ops|] == ops;
  }

  lemma NextRemainder(a: nat)
    ensures (a % UINT64_SIZE + 1) % UINT64_SIZE == (a + 1) % UINT64_SIZE
  {
    var q, r := a / UINT64_SIZE, a % UINT64_SIZE;
    if r + 1 < UINT64_SIZE {
      ModUnique(a + 1, q, r + 1);
    } else {
      ModUnique(a + 1, q + 1, 0);
      ModUnique(UINT64_SIZE, 1, 0);
    }
  }
}
