/**
Which requests to end a connection are sure to be answered with one OnDisconnect:
an exact condition on every reachable state, and what it says at each place where
the server or the application asks for the connection to be torn down.
*/
module TeardownGuarantees {
  import opened ServerTeardown

  // ------------------------------------------------------- the handlers always finish

  /** A step of the server itself, as opposed to the application's or the peer's. */
  predicate OfHandlers(e: Event) {
    !e.Create? && !e.Disconnect? && !e.FirstReceive? && !e.CloseReceive?
  }

  ghost predicate HandlersOnly(es: seq<Event>) {
    forall e :: e in es ==> OfHandlers(e)
  }

  /** Somebody is on the way to post, to look at, or to act on a disconnect packet. */
  predicate UnderWay(s: State) {
    s.packets + s.sendPosting + s.clientGone + s.counting + s.posting + s.acceptPosting
    + s.checkingFlag + s.checkingCount + s.removing > 0
  }

  /** No send is outstanding that a handler could still remove, and nobody is inside a handler. */
  predicate AtRest(s: State) {
    s.queued == s.orphaned && !UnderWay(s) && s.sawEmpty + s.sawClosed + s.notifying == 0
  }

  /** At rest means exactly that no handler has a step left. */
  lemma AtRestExactly(s: State)
    requires Sound(s)
    ensures AtRest(s) <==> forall e :: OfHandlers(e) ==> !Enabled(s, e)
  {
    if !AtRest(s) {
      var e := SomeStep(s);
      assert OfHandlers(e) && Enabled(s, e);
    } else {
      forall e | OfHandlers(e)
        ensures !Enabled(s, e)
      {
        NothingEnabled(s, e);
      }
    }
  }

  lemma SomeStep(s: State) returns (e: Event)
    requires Sound(s) && !AtRest(s)
    ensures OfHandlers(e) && Enabled(s, e)
  {
    if s.queued != s.orphaned {
      e := NextSend(s, s.orphaned);
    } else {
      e := if s.sawEmpty > 0 then ReadClosed else if s.sawClosed > 0 then ReadPending
           else if s.notifying > 0 then Notify else if s.removing > 0 then Erase else NextRequest(s);
    }
  }

  lemma NothingEnabled(s: State, e: Event)
    requires Sound(s) && AtRest(s) && OfHandlers(e)
    ensures !Enabled(s, e)
  {
    assert s.inFlight + s.completing <= s.queued;
  }

  /** The next step of some outstanding send other than those of `keep`. */
  lemma NextSend(s: State, keep: set<Context>) returns (e: Event)
    requires SendsTracked(s) && s.orphaned <= keep < s.queued
    ensures e.RemoveSend? || e.Complete? || e.PostAccepted?
    ensures Enabled(s, e) && e.c in s.queued && e.c !in keep
  {
    assert exists c :: c in s.queued && c !in keep;
    var c :| c in s.queued && c !in keep;
    e := if c in s.completing then RemoveSend(c) else if c in s.inFlight then Complete(c) else PostAccepted(c);
  }

  /** The next step of some request to disconnect. */
  function NextRequest(s: State): Event {
    if s.clientGone > 0 then DisconnectFromCallback else if s.sendPosting > 0 then PostFromSend
    else if s.acceptPosting > 0 then PostFromAccept else if s.counting > 0 then Count
    else if s.posting > 0 then Post else if s.packets > 0 then Take
    else if s.checkingFlag > 0 then ReadFlag else ReadCount
  }

  /** The sends that still have steps to take. */
  function Live(s: State): set<Context> {
    s.queued - s.orphaned
  }

  function SendWeight(live: set<Context>, inFlight: set<Context>, completing: set<Context>): int {
    11 * |live| - |inFlight| - 2 * |completing|
  }

  function RequestWeight(s: State): nat {
    8 * s.sawEmpty + 7 * s.sawClosed + 6 * s.sendPosting
    + 8 * s.clientGone + 7 * s.counting + 6 * s.posting + 6 * s.acceptPosting + 5 * s.packets
    + 4 * s.checkingFlag + 3 * s.checkingCount + 2 * s.removing + s.notifying
  }

  /** How many steps the handlers can still take at most. */
  function Weight(s: State): int {
    SendWeight(Live(s), s.inFlight, s.completing) + RequestWeight(s)
  }

  lemma WeightNonNegative(s: State)
    requires Sound(s)
    ensures Weight(s) >= 0
  {
    CardinalityBound(s.inFlight, s.completing, Live(s));
  }

  lemma CardinalityBound<T>(a: set<T>, b: set<T>, c: set<T>)
    requires a !! b && a + b <= c
    ensures |a| + |b| <= |c|
  {
    assert |a + b| == |a| + |b|;
    assert c == (a + b) + (c - (a + b));
  }

  predicate MovesSend(e: Event) {
    e.PostAccepted? || e.PostRefused? || e.Complete? || e.RemoveSend?
  }

  lemma SendWeights(live: set<Context>, inFlight: set<Context>, completing: set<Context>, c: Context)
    ensures var w := SendWeight(live, inFlight, completing);
            && (c in live ==> SendWeight(live - {c}, inFlight, completing) == w - 11)
            && (c !in inFlight ==> SendWeight(live, inFlight + {c}, completing) == w - 1)
            && (c in inFlight ==> SendWeight(live, inFlight - {c}, completing) == w + 1)
            && (c !in completing ==> SendWeight(live, inFlight, completing + {c}) == w - 2)
            && (c in completing ==> SendWeight(live, inFlight, completing - {c}) == w + 2)
  {
  }

  lemma SendWeightAfter(s: State, e: Event)
    requires SendsTracked(s) && Enabled(s, e) && MovesSend(e)
    ensures var t := Apply(s, e);
            SendWeight(Live(t), t.inFlight, t.completing)
            <= SendWeight(Live(s), s.inFlight, s.completing) - if e.RemoveSend? then 9 else 1
  {
    hide SendWeight, Live;
    var t := Apply(s, e);
    LiveAfter(s, e);
    SendWeights(Live(s), s.inFlight, s.completing, e.c);
    if e.Complete? {
      SendWeights(Live(t), t.inFlight, s.completing, e.c);
      SendWeights(Live(t), s.inFlight, s.completing, e.c);
    } else if e.RemoveSend? {
      SendWeights(Live(t), s.inFlight, s.completing, e.c);
    }
  }

  lemma RequestWeightAfter(s: State, e: Event)
    requires Enabled(s, e) && MovesSend(e)
    ensures RequestWeight(Apply(s, e)) <= RequestWeight(s) + if e.RemoveSend? then 8 else 0
  {
    hide RequestWeight;
    var t := Apply(s, e);
    assert t.sawEmpty <= s.sawEmpty + One(e.RemoveSend?);
    assert RequestWeight(t.(sawEmpty := s.sawEmpty)) == RequestWeight(s) by {
      SendsWeighNothing(s, t.queued, t.inFlight, t.completing, t.orphaned);
    }
    WeightOfSawEmpty(t, s.sawEmpty);
  }

  lemma SendsWeighNothing(s: State, queued: set<Context>, inFlight: set<Context>, completing: set<Context>,
                          orphaned: set<Context>)
    ensures RequestWeight(s.(queued := queued, inFlight := inFlight, completing := completing, orphaned := orphaned))
            == RequestWeight(s)
  {
  }

  lemma WeightOfSawEmpty(s: State, n: nat)
    ensures RequestWeight(s) == RequestWeight(s.(sawEmpty := n)) + 8 * (s.sawEmpty - n)
  {
  }

  lemma LiveAfter(s: State, e: Event)
    requires SendsTracked(s) && Enabled(s, e) && MovesSend(e)
    ensures var gone := e.PostRefused? || e.RemoveSend? || (e.Complete? && !s.registered);
            e.c in Live(s) && Live(Apply(s, e)) == if gone then Live(s) - {e.c} else Live(s)
  {
  }

  lemma RequestStepShrinks(s: State, e: Event)
    requires Enabled(s, e) && OfHandlers(e) && !MovesSend(e)
    ensures Weight(Apply(s, e)) < Weight(s)
  {
    hide SendWeight;
  }

  /** Every step of a handler leaves fewer steps to take. */
  lemma HandlerStepShrinks(s: State, e: Event)
    requires SendsTracked(s) && Enabled(s, e) && OfHandlers(e)
    ensures Weight(Apply(s, e)) < Weight(s)
  {
    hide Apply, SendWeight, RequestWeight, Live, Enabled, SendsTracked;
    if MovesSend(e) {
      SendWeightAfter(s, e);
      RequestWeightAfter(s, e);
    } else {
      RequestStepShrinks(s, e);
    }
  }

  /** Whatever the handlers still do, left to themselves they stop after that many steps. */
  lemma {:induction false} HandlersFinish(s: State, es: seq<Event>)
    requires Sound(s) && Legal(s, es) && HandlersOnly(es)
    ensures |es| <= Weight(s)
    decreases |es|
  {
    hide Enabled, Apply, Sound, SendsTracked, Weight, OfHandlers;
    WeightNonNegative(s);
    if |es| != 0 {
      assert SendsTracked(s) by {
        SoundTracks(s);
      }
      HandlerStepShrinks(s, es[0]);
      SoundStep(s, es[0]);
      HandlersFinish(Apply(s, es[0]), es[1..]);
    }
  }

  lemma SoundTracks(s: State)
    requires Sound(s)
    ensures SendsTracked(s)
  {
  }

  // -------------------------------------------------------------- when it is certain

  /** All there is to wait for has happened. */
  predicate Quiet(s: State) {
    s.rcvClosed && AtRest(s)
  }

  predicate TornDown(s: State) {
    !s.registered && s.callbacks == 1
  }

  /** If nothing more is sent, every run that comes to rest has told the application, once. */
  ghost predicate AlwaysTornDown(t: State) {
    forall es: seq<Event> :: Legal(t, es) && NoSends(es) && Quiet(After(t, es)) ==> TornDown(After(t, es))
  }

  /** No Send call stands between queueing its context and posting it. */
  predicate Posted(s: State) {
    s.queued <= s.inFlight + s.completing + s.orphaned
  }

  /** A send completion will see the pending disconnect after the last context is gone. */
  predicate SendWillPost(s: State) {
    s.pending > 0 && (s.queued != {} || s.sawEmpty + s.sawClosed > 0)
  }

  /** No Disconnect has been counted and none is on its way. */
  predicate Unasked(s: State) {
    s.pending + s.counting + s.clientGone == 0
  }

  /** The connection is sure to go, provided nothing more is sent. */
  predicate Owed(s: State) {
    && s.rcvClosed
    && (Leaving(s)
        || (Posted(s) && (s.queued == {} || !Unasked(s)) && (UnderWay(s) || SendWillPost(s))))
  }

  lemma OwedStep(s: State, e: Event)
    requires Owed(s) && Enabled(s, e) && !e.Create?
    ensures Owed(Apply(s, e))
  {
  }

  lemma {:induction false} OwedAlways(s: State, es: seq<Event>)
    requires Sound(s) && Owed(s) && Legal(s, es) && NoSends(es)
    ensures Sound(After(s, es)) && Owed(After(s, es))
    decreases |es|
  {
    hide Enabled, Apply, Sound, Owed;
    if |es| != 0 {
      SoundStep(s, es[0]);
      OwedStep(s, es[0]);
      OwedAlways(Apply(s, es[0]), es[1..]);
    }
  }

  lemma OwedIsPaid(s: State)
    requires Sound(s) && Owed(s) && AtRest(s)
    ensures TornDown(s) && !s.registered && s.callbacks == 1 && s.rcvClosed
  {
  }

  // ------------------------------------------------- runs in which teardown is lost

  /** Nobody will remove the connection while the sends of `keep` take no step. */
  predicate Stuck(s: State, keep: set<Context>) {
    && s.registered && s.removing == 0 && s.orphaned == {} && keep <= s.queued
    && (!s.rcvClosed || keep != {} || (!UnderWay(s) && s.pending == 0))
  }

  predicate Drained(s: State, keep: set<Context>) {
    s.queued == keep && !UnderWay(s) && s.sawEmpty + s.sawClosed == 0
  }

  predicate SameKept(s: State, t: State, keep: set<Context>) {
    && t.rcvClosed == s.rcvClosed && t.rcvPosted == s.rcvPosted
    && t.inFlight * keep == s.inFlight * keep && t.completing * keep == s.completing * keep
    && (Unasked(s) ==> Unasked(t))
  }

  lemma SendAround(s: State, keep: set<Context>, e: Event)
    requires Stuck(s, keep) && Enabled(s, e)
    requires (e.RemoveSend? || e.Complete? || e.PostAccepted?) && e.c !in keep
    ensures Stuck(Apply(s, e), keep) && SameKept(s, Apply(s, e), keep)
  {
  }

  lemma CheckAround(s: State, keep: set<Context>, e: Event)
    requires Stuck(s, keep) && Enabled(s, e) && (e.ReadClosed? || e.ReadPending?)
    ensures Stuck(Apply(s, e), keep) && SameKept(s, Apply(s, e), keep)
  {
  }

  lemma RequestAround(s: State, keep: set<Context>) returns (e: Event)
    requires Sound(s) && Stuck(s, keep) && UnderWay(s)
    ensures Enabled(s, e) && OfHandlers(e)
    ensures Stuck(Apply(s, e), keep) && SameKept(s, Apply(s, e), keep)
  {
    e := NextRequest(s);
  }

  lemma NextAround(s: State, keep: set<Context>) returns (e: Event)
    requires Sound(s) && Stuck(s, keep) && !Drained(s, keep)
    ensures Enabled(s, e) && OfHandlers(e)
    ensures Stuck(Apply(s, e), keep) && SameKept(s, Apply(s, e), keep)
  {
    hide Enabled, Apply, SameKept, NextRequest;
    if s.queued != keep {
      e := NextSend(s, keep);
      SendAround(s, keep, e);
    } else if UnderWay(s) {
      e := RequestAround(s, keep);
    } else {
      e := if s.sawEmpty > 0 then ReadClosed else ReadPending;
      assert Enabled(s, e) by {
        CheckEnabled(s);
      }
      CheckAround(s, keep, e);
    }
  }

  lemma CheckEnabled(s: State)
    ensures s.sawEmpty > 0 ==> Enabled(s, ReadClosed)
    ensures s.sawClosed > 0 ==> Enabled(s, ReadPending)
  {
  }

  /** While the sends of `keep` stand still, everything else runs out around them. */
  lemma {:induction false} DrainAround(s: State, keep: set<Context>) returns (es: seq<Event>)
    requires Sound(s) && Stuck(s, keep)
    ensures Legal(s, es) && NoSends(es)
    ensures var t := After(s, es); Sound(t) && Stuck(t, keep) && Drained(t, keep) && SameKept(s, t, keep)
    decreases Weight(s)
  {
    hide Enabled, Apply, Sound, SendsTracked, Stuck, Drained, Weight, OfHandlers;
    if Drained(s, keep) {
      es := [];
    } else {
      var e := NextAround(s, keep);
      SoundTracks(s);
      HandlerStepShrinks(s, e);
      WeightNonNegative(s);
      SoundStep(s, e);
      assert !e.Create? by {
        assert OfHandlers(e);
        HandlersDoNotSend(e);
      }
      var rest := DrainAround(Apply(s, e), keep);
      es := [e] + rest;
      assert es[1..] == rest;
    }
  }

  lemma HandlersDoNotSend(e: Event)
    requires OfHandlers(e)
    ensures !e.Create?
  {
  }

  /** A run, without a further send, that ends with the connection still registered. */
  ghost predicate Loses(s: State, es: seq<Event>) {
    Legal(s, es) && NoSends(es) && Quiet(After(s, es)) && After(s, es).registered
  }

  lemma LosesAfter(s: State, a: seq<Event>, b: seq<Event>)
    requires Legal(s, a) && NoSends(a) && Loses(After(s, a), b)
    ensures Loses(s, a + b)
  {
    hide Legal, After, Quiet;
    AfterAppend(s, a, b);
  }

  lemma DrainedIsQuiet(s: State)
    requires Sound(s) && s.rcvClosed && s.registered && Drained(s, {})
    ensures Quiet(s)
  {
  }

  /** The receive is open: everything runs out, and only then does the peer close. */
  lemma LostWhileOpen(s: State) returns (es: seq<Event>)
    requires Sound(s) && !s.rcvClosed
    ensures Loses(s, es)
  {
    hide Legal, After;
    var drain := DrainAround(s, {});
    var t := After(s, drain);
    var end := [];
    assert Legal(t, []) && After(t, []) == t by {
      EmptyRun(t);
    }
    if !t.rcvPosted {
      end := Then(t, end, FirstReceive(true));
    }
    var u := After(t, end);
    end := Then(t, end, CloseReceive(false));
    DrainedIsQuiet(Apply(u, CloseReceive(false)));
    LosesAfter(s, drain, end);
    es := drain + end;
  }

  /** The post of a queued send is still to come: it is refused when everyone has looked. */
  lemma LostByRefusal(s: State, c: Context) returns (es: seq<Event>)
    requires Sound(s) && s.rcvClosed && !Leaving(s) && Unposted(s, c)
    ensures Loses(s, es)
  {
    hide Legal, After;
    var drain := DrainAround(s, {c});
    var t := After(s, drain);
    assert Unposted(t, c) by {
      assert c !in t.inFlight * {c} && c !in t.completing * {c};
    }
    assert Legal(t, []) && After(t, []) == t by {
      EmptyRun(t);
    }
    var end := Then(t, [], PostRefused(c));
    var u := Apply(t, PostRefused(c));
    assert Drained(u, {});
    SoundStep(t, PostRefused(c));
    DrainedIsQuiet(u);
    LosesAfter(s, drain, end);
    es := drain + end;
  }

  /** Nobody is under way and no completion will post: the connection is forgotten. */
  lemma LostForgotten(s: State) returns (es: seq<Event>)
    requires Sound(s) && s.rcvClosed && s.registered && !UnderWay(s) && !SendWillPost(s)
    ensures Loses(s, es)
  {
    hide Legal, After;
    if s.pending == 0 {
      es := DrainAround(s, {});
      DrainedIsQuiet(After(s, es));
    } else {
      es := [];
      EmptyRun(s);
      DrainedIsQuiet(s);
    }
  }

  /** Nobody has asked to disconnect, and the one packet is looked at while a send is out. */
  lemma LostUnasked(s: State) returns (es: seq<Event>)
    requires Sound(s) && s.rcvClosed && !Leaving(s) && s.queued != {} && Unasked(s)
    ensures Loses(s, es)
  {
    hide Legal, After;
    var c :| c in s.queued;
    var drain := DrainAround(s, {c});
    var end := LostForgotten(After(s, drain));
    LosesAfter(s, drain, end);
    es := drain + end;
  }

  lemma NotOwedIsLost(s: State) returns (es: seq<Event>)
    requires Sound(s) && !Owed(s)
    ensures Loses(s, es)
  {
    hide Loses, Sound;
    if !s.rcvClosed {
      es := LostWhileOpen(s);
    } else if !Posted(s) {
      var c :| c in s.queued && c !in s.inFlight + s.completing + s.orphaned;
      es := LostByRefusal(s, c);
    } else if s.queued != {} && Unasked(s) {
      es := LostUnasked(s);
    } else {
      es := LostForgotten(s);
    }
  }

  // ---------------------------------------------------------------- what is certain

  /**
  Exactly when teardown is certain: from a reachable state every run without
  further sends that comes to rest has made the one OnDisconnect call if and only
  if the receive is closed and either the connection is already leaving or every
  send is posted, any outstanding one has a Disconnect behind it, and somebody
  will still post or look at a packet.
  */
  lemma TornDownExactly(s: State)
    requires Reachable(s)
    ensures AlwaysTornDown(s) <==> Owed(s)
  {
    ReachableSound(s);
    SoundTornDownExactly(s);
  }

  lemma SoundTornDownExactly(s: State)
    requires Sound(s)
    ensures AlwaysTornDown(s) <==> Owed(s)
  {
    hide Legal, After, Owed, Sound, AtRest;
    if Owed(s) {
      forall es: seq<Event> | Legal(s, es) && NoSends(es) && Quiet(After(s, es))
        ensures TornDown(After(s, es))
      {
        OwedAlways(s, es);
        OwedIsPaid(After(s, es));
      }
    } else {
      var es := NotOwedIsLost(s);
      assert Legal(s, es) && NoSends(es) && Quiet(After(s, es)) && !TornDown(After(s, es));
    }
  }

  /**
  And it does happen: where teardown is certain, the handlers left to themselves
  take a bounded number of steps, and when none of them has a step left the
  connection is gone and the application has been told.
  */
  lemma TeardownHappens(s: State, es: seq<Event>)
    requires Reachable(s) && AlwaysTornDown(s)
    requires Legal(s, es) && HandlersOnly(es)
    ensures |es| <= Weight(s)
    ensures (forall e :: OfHandlers(e) ==> !Enabled(After(s, es), e))
            ==> !After(s, es).registered && After(s, es).callbacks == 1 && After(s, es).rcvClosed
  {
    hide Legal, After, Sound, Owed, AtRest, TornDown, Enabled, Weight, Apply, AlwaysTornDown;
    ReachableSound(s);
    TornDownExactly(s);
    HandlersFinish(s, es);
    OwedAlways(s, es);
    AtRestExactly(After(s, es));
    if AtRest(After(s, es)) {
      OwedIsPaid(After(s, es));
    }
  }

  /**
  A call of `Disconnect` is certain to end in one OnDisconnect if and only if,
  when it is made, the receive is closed and no Send call stands between queueing
  its context and posting it, or the connection is leaving anyhow.
  */
  lemma DisconnectGuarantee(s: State)
    requires Reachable(s)
    ensures AlwaysTornDown(Apply(s, Disconnect)) <==> s.rcvClosed && (Posted(s) || Leaving(s))
    ensures Safe(s) ==> (AlwaysTornDown(Apply(s, Disconnect)) <==> s.rcvClosed && Posted(s))
  {
    hide AlwaysTornDown, Reachable;
    ReachableSound(s);
    SoundStep(s, Disconnect);
    SoundTornDownExactly(Apply(s, Disconnect));
  }

  /**
  The default OnClientDisconnect calls Disconnect when the receive has closed:
  that is certain to tear the connection down if and only if no Send call stands
  between queueing and posting at that moment, or the connection is leaving anyhow.
  */
  lemma DefaultHandlerTearsDown(s: State)
    requires Reachable(s) && Enabled(s, DisconnectFromCallback)
    ensures AlwaysTornDown(Apply(s, DisconnectFromCallback)) <==> Posted(s) || Leaving(s)
    ensures Safe(s) ==> (AlwaysTornDown(Apply(s, DisconnectFromCallback)) <==> Posted(s))
  {
    hide AlwaysTornDown, Reachable;
    ReachableSound(s);
    SoundStep(s, DisconnectFromCallback);
    SoundTornDownExactly(Apply(s, DisconnectFromCallback));
  }

  /**
  When the very first receive is refused, the connection is certain to be torn
  down, provided nothing is sent afterwards, if and only if no send is
  outstanding or a Disconnect has begun and every send is posted.
  */
  lemma RefusedReceiveGuarantee(s: State)
    requires Reachable(s) && Enabled(s, FirstReceive(false))
    ensures AlwaysTornDown(Apply(s, FirstReceive(false))) <==> s.queued == {} || (s.stopping && Posted(s))
  {
    hide AlwaysTornDown, Reachable;
    ReachableSound(s);
    SoundStep(s, FirstReceive(false));
    SoundTornDownExactly(Apply(s, FirstReceive(false)));
  }

  /**
  The application is not told that the receive was refused. If it may still send,
  teardown is never certain: one more send can always lose it.
  */
  lemma RefusedReceiveNeverCertain(s: State, c: Context) returns (es: seq<Event>)
    requires Reachable(s) && Enabled(s, FirstReceive(false)) && c !in s.queued
    ensures var t := Apply(s, FirstReceive(false));
            Enabled(t, Create(c)) && Loses(Apply(t, Create(c)), es)
  {
    hide Loses, Reachable, Legal, After;
    ReachableSound(s);
    var t := Apply(s, FirstReceive(false));
    SoundStep(s, FirstReceive(false));
    SoundStep(t, Create(c));
    assert c !in t.inFlight && c !in t.completing;
    es := LostByRefusal(Apply(t, Create(c)), c);
  }

  // ------------------------------------------------------------ the inputs that fail

  /** One Send call has queued its context when the peer closes. */
  lemma ClosedBeforePost(disconnects: bool) returns (es: seq<Event>)
    ensures es == [FirstReceive(true), Create(0), CloseReceive(disconnects)]
    ensures Legal(INIT, es)
    ensures After(INIT, es)
            == INIT.(rcvPosted := true, rcvClosed := true, queued := {0}, clientGone := One(disconnects))
  {
    hide Legal, After;
    EmptyRun(INIT);
    es := Then(INIT, [], FirstReceive(true));
    es := Then(INIT, es, Create(0));
    assert After(INIT, es).queued == {0};
    es := Then(INIT, es, CloseReceive(disconnects));
  }

  const DISCONNECT_THEN_REFUSAL := [Count, Post, Take, ReadFlag, ReadCount, PostRefused(0)]

  lemma RefusalLoses(s: State)
    requires s == INIT.(rcvPosted := true, rcvClosed := true, queued := {0}, counting := 1, stopping := true)
    ensures Loses(s, DISCONNECT_THEN_REFUSAL)
  {
    hide Legal, After;
    var es := DisconnectIsPosted(s);
    var look := PacketIsLookedAt(After(s, es));
    AfterAppend(s, es, look);
    es := Then(s, es + look, PostRefused(0));
    assert es == DISCONNECT_THEN_REFUSAL;
    assert After(s, es).queued == {};
  }

  /**
  A closed receive alone is not enough: the Disconnect is looked at while the
  send is queued, and the refused post then leaves the queue without a word. The
  same happens to the Disconnect of the default handler.
  */
  lemma RefusedSendLosesTeardown(disconnects: bool) returns (before: seq<Event>)
    ensures before == [FirstReceive(true), Create(0), CloseReceive(disconnects)] && Legal(INIT, before)
    ensures var s, e := After(INIT, before), if disconnects then DisconnectFromCallback else Disconnect;
            s.rcvClosed && !s.stopping && Enabled(s, e) && Loses(Apply(s, e), DISCONNECT_THEN_REFUSAL)
  {
    hide Legal, After, Loses;
    before := ClosedBeforePost(disconnects);
    var s := After(INIT, before);
    RefusalLoses(Apply(s, if disconnects then DisconnectFromCallback else Disconnect));
  }

  /** The only send completes while no Disconnect is pending, and nothing comes of it. */
  lemma LastSendCompletes(s: State, c: Context) returns (es: seq<Event>)
    requires s.rcvClosed && s.pending == 0 && s.queued == s.inFlight == {c} && s.completing == {} && s.registered
    ensures es == [Complete(c), RemoveSend(c), ReadClosed, ReadPending] && Legal(s, es)
    ensures After(s, es) == s.(queued := {}, inFlight := {})
  {
    hide Legal, After;
    EmptyRun(s);
    es := Then(s, [], Complete(c));
    es := Then(s, es, RemoveSend(c));
    assert After(s, es).queued == {} == After(s, es).inFlight && After(s, es).completing == {};
    es := Then(s, es, ReadClosed);
    es := Then(s, es, ReadPending);
  }

  /**
  An accepted send is enough to lose a connection whose first receive was refused
  with an empty queue: no post fails, no Disconnect is called, and the connection
  stays.
  */
  lemma SendAfterRefusalLosesTeardown() returns (es: seq<Event>)
    ensures es == [FirstReceive(false), PostFromAccept, Create(0), PostAccepted(0), Take, ReadFlag, ReadCount,
                   Complete(0), RemoveSend(0), ReadClosed, ReadPending]
    ensures Legal(INIT, es) && Quiet(After(INIT, es)) && After(INIT, es).registered && !After(INIT, es).stopping
  {
    hide Legal, After;
    es := RefusalIsPosted();
    var send := SendIsPosted(After(INIT, es), 0);
    AfterAppend(INIT, es, send);
    es := es + send;
    assert 0 in After(INIT, es).queued;
    var look := PacketIsLookedAt(After(INIT, es));
    AfterAppend(INIT, es, look);
    es := es + look;
    var done := LastSendCompletes(After(INIT, es), 0);
    AfterAppend(INIT, es, done);
    es := es + done;
  }
}
