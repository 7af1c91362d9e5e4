/**
What each call and each handler of `ServerTeardown` does from beginning to end
when nobody interferes, and when completions post a disconnect packet however
much everybody does.
*/
module TeardownHandlers {
  import opened ServerTeardown

  // --------------------------------------------------------- one handler, undisturbed

  /** One step further, if the handler gets to it. */
  lemma ThenIf(s: State, es: seq<Event>, e: Event, taken: bool) returns (more: seq<Event>)
    requires Legal(s, es) && (taken ==> Enabled(After(s, es), e))
    ensures more == es + (if taken then [e] else []) && Legal(s, more)
    ensures After(s, more) == if taken then Apply(After(s, es), e) else After(s, es)
  {
    hide Enabled, Apply, Legal, After;
    if taken {
      more := Then(s, es, e);
    } else {
      more := es;
    }
  }

  /** `Send`: the context stays queued and in flight; a refused post leaves no trace. */
  lemma SendAlone(s: State, c: Context, accepted: bool) returns (es: seq<Event>)
    requires SendsTracked(s) && c !in s.queued
    ensures es == [Create(c), if accepted then PostAccepted(c) else PostRefused(c)] && Legal(s, es)
    ensures After(s, es) == if accepted then s.(queued := s.queued + {c}, inFlight := s.inFlight + {c}) else s
  {
    hide Legal, After;
    EmptyRun(s);
    assert c !in s.inFlight + s.completing + s.orphaned;
    es := Then(s, [], Create(c));
    es := Then(s, es, if accepted then PostAccepted(c) else PostRefused(c));
    assert s.queued + {c} - {c} == s.queued;
  }

  /** `HandleSend` from the removal of the context on: only the last one looks any further. */
  lemma RemoveAlone(s: State, c: Context) returns (es: seq<Event>)
    requires c in s.completing && c in s.queued
    ensures var last := s.queued == {c};
            var posts := last && s.rcvClosed && s.pending > 0;
            && es == [RemoveSend(c)] + (if last then [ReadClosed] else [])
                     + (if last && s.rcvClosed then [ReadPending] else []) + (if posts then [PostFromSend] else [])
            && Legal(s, es)
            && After(s, es) == s.(queued := s.queued - {c}, completing := s.completing - {c},
                                  packets := s.packets + One(posts))
  {
    hide Legal, After;
    EmptyRun(s);
    assert s.queued - {c} == {} <==> s.queued == {c};
    es := Then(s, [], RemoveSend(c));
    if s.queued == {c} {
      var look := LookAlone(After(s, es));
      AfterAppend(s, es, look);
      es := es + look;
    }
  }

  lemma LookAlone(s: State) returns (es: seq<Event>)
    requires s.sawEmpty > 0
    ensures var posts := s.rcvClosed && s.pending > 0;
            && es == [ReadClosed] + (if s.rcvClosed then [ReadPending] else []) + (if posts then [PostFromSend] else [])
            && Legal(s, es)
            && After(s, es) == s.(sawEmpty := s.sawEmpty - 1, packets := s.packets + One(posts))
  {
    hide Legal, After;
    EmptyRun(s);
    es := Then(s, [], ReadClosed);
    if s.rcvClosed {
      es := Then(s, es, ReadPending);
      es := ThenIf(s, es, PostFromSend, s.pending > 0);
    }
  }

  /**
  `HandleSend`, undisturbed: the context is gone from the queue, and a packet is
  posted if and only if it was the last, the receive is closed and a Disconnect is
  pending. Without the connection nothing is removed.
  */
  lemma HandleSendAlone(s: State, c: Context) returns (es: seq<Event>)
    requires SendsTracked(s) && c in s.inFlight
    ensures Legal(s, es)
    ensures After(s, es)
            == if s.registered then
                 s.(queued := s.queued - {c}, inFlight := s.inFlight - {c},
                    packets := s.packets + One(s.queued == {c} && s.rcvClosed && s.pending > 0))
               else s.(inFlight := s.inFlight - {c}, orphaned := s.orphaned + {c})
    ensures es[..1] == [Complete(c)] && (!s.registered ==> es == [Complete(c)])
  {
    hide Legal, After;
    EmptyRun(s);
    es := Then(s, [], Complete(c));
    if s.registered {
      var t := After(s, es);
      assert t.completing == s.completing + {c} && s.completing + {c} - {c} == s.completing;
      var remove := RemoveAlone(t, c);
      AfterAppend(s, es, remove);
      es := es + remove;
    }
  }

  /**
  `HandleDisconnect`, undisturbed: the packet is used up, and the connection is
  removed and the application told if and only if it was still registered, with
  its receive closed and no send queued.
  */
  lemma HandleDisconnectAlone(s: State) returns (es: seq<Event>)
    requires s.packets > 0
    ensures var found, closed := s.registered, s.registered && s.rcvClosed;
            var removes := closed && s.queued == {};
            && es == [Take] + (if found then [ReadFlag] else []) + (if closed then [ReadCount] else [])
                     + (if removes then [Erase] else []) + (if removes then [Notify] else [])
            && Legal(s, es)
            && After(s, es) == s.(packets := s.packets - 1, registered := s.registered && !removes,
                                  callbacks := s.callbacks + One(removes))
  {
    hide Legal, After;
    if s.registered && s.rcvClosed {
      es := PacketIsLookedAt(s);
      if s.queued == {} {
        var removal := RemovalTells(After(s, es));
        AfterAppend(s, es, removal);
        es := es + removal;
      }
    } else {
      EmptyRun(s);
      es := Then(s, [], Take);
      es := ThenIf(s, es, ReadFlag, s.registered);
    }
  }

  lemma RemovalTells(s: State) returns (es: seq<Event>)
    requires s.registered && s.removing > 0
    ensures es == [Erase, Notify] && Legal(s, es)
    ensures After(s, es) == s.(removing := s.removing - 1, registered := false, callbacks := s.callbacks + 1)
  {
    hide Legal, After;
    EmptyRun(s);
    es := Then(s, [], Erase);
    es := Then(s, es, Notify);
  }

  /** `Disconnect`, undisturbed: counted and posted exactly if the connection is found. */
  lemma DisconnectAlone(s: State) returns (es: seq<Event>)
    ensures es == [Disconnect] + (if s.registered then [Count] else []) + (if s.registered then [Post] else [])
    ensures Legal(s, es)
    ensures After(s, es) == s.(stopping := true, pending := s.pending + One(s.registered),
                               packets := s.packets + One(s.registered))
  {
    hide Legal, After;
    EmptyRun(s);
    es := Then(s, [], Disconnect);
    if s.registered {
      var post := DisconnectIsPosted(After(s, es));
      AfterAppend(s, es, post);
      es := es + post;
    }
  }

  /** `HandleReceive` at the peer's close, with or without the default handler's Disconnect. */
  lemma HandleReceiveAlone(s: State, disconnects: bool) returns (es: seq<Event>)
    requires s.rcvPosted && !s.rcvClosed && s.registered
    ensures es == [CloseReceive(disconnects)] + (if disconnects then [DisconnectFromCallback] else [])
                  + (if disconnects then [Count] else []) + (if disconnects then [Post] else [])
    ensures Legal(s, es)
    ensures After(s, es) == s.(rcvClosed := true, stopping := s.stopping || disconnects,
                               pending := s.pending + One(disconnects), packets := s.packets + One(disconnects))
  {
    hide Legal, After;
    EmptyRun(s);
    es := Then(s, [], CloseReceive(disconnects));
    if disconnects {
      es := Then(s, es, DisconnectFromCallback);
      var post := DisconnectIsPosted(After(s, es));
      AfterAppend(s, es, post);
      es := es + post;
    }
  }

  /** `HandleAccept`: a first receive that is refused closes the receive and posts one packet. */
  lemma HandleAcceptAlone(s: State, accepted: bool) returns (es: seq<Event>)
    requires !s.rcvPosted && !s.rcvClosed
    ensures es == [FirstReceive(accepted)] + (if !accepted then [PostFromAccept] else []) && Legal(s, es)
    ensures After(s, es) == if accepted then s.(rcvPosted := true) else s.(rcvClosed := true, packets := s.packets + 1)
  {
    hide Legal, After;
    EmptyRun(s);
    es := Then(s, [], FirstReceive(accepted));
    es := ThenIf(s, es, PostFromAccept, !accepted);
  }

  /** The last completion finds a pending Disconnect, and its packet removes the connection, with one notice. */
  lemma LastCompletionTearsDown(s: State, c: Context) returns (es: seq<Event>)
    requires Sound(s) && s.registered && s.rcvClosed && s.pending > 0 && s.queued == s.inFlight == {c}
    ensures Legal(s, es)
    ensures After(s, es) == s.(registered := false, callbacks := 1, queued := {}, inFlight := {})
  {
    hide Legal, After;
    es := HandleSendAlone(s, c);
    var t := After(s, es);
    assert t.queued == {} && t.inFlight == {};
    var take := HandleDisconnectAlone(t);
    AfterAppend(s, es, take);
    es := es + take;
  }

  // ----------------------------------------------- which completions post, in any run

  function Posts(es: seq<Event>): nat
    decreases |es|
  {
    if |es| == 0 then 0 else One(es[0].PostFromSend?) + Posts(es[1..])
  }

  /** Completions that have seen an empty queue and have not posted yet. */
  function MayPost(s: State): nat {
    s.sawEmpty + s.sawClosed + s.sendPosting
  }

  lemma MayPostRemoval(s: State, c: Context)
    requires SendsTracked(s) && Enabled(s, RemoveSend(c))
    ensures var t := Apply(s, RemoveSend(c));
            MayPost(t) + One(t.queued != {}) <= MayPost(s) + One(s.queued != {})
  {
    assert c in s.queued;
  }

  lemma MayPostOther(s: State, e: Event)
    requires Enabled(s, e) && !e.RemoveSend?
    ensures One(e.PostFromSend?) + MayPost(Apply(s, e)) <= MayPost(s)
  {
  }

  lemma MayPostStep(s: State, e: Event)
    requires SendsTracked(s) && Enabled(s, e) && !e.Create?
    ensures var t := Apply(s, e);
            One(e.PostFromSend?) + MayPost(t) + One(t.queued != {}) <= MayPost(s) + One(s.queued != {})
  {
    hide Apply, Enabled, MayPost, SendsTracked;
    if e.RemoveSend? {
      MayPostRemoval(s, e.c);
    } else {
      MayPostOther(s, e);
      QueueShrinks(s, e);
    }
  }

  /**
  Only the last completion posts: while no new send is created, whatever the
  interleaving, completions post at most once more than those already on their
  way to it, and not even that once the queue is empty.
  */
  lemma {:induction false} OnlyLastCompletionPosts(s: State, es: seq<Event>)
    requires SendsTracked(s) && Legal(s, es) && NoSends(es)
    ensures Posts(es) <= MayPost(s) + One(s.queued != {})
    decreases |es|
  {
    hide Enabled, Apply, MayPost, SendsTracked;
    if |es| != 0 {
      SendsTrackedStep(s, es[0]);
      MayPostStep(s, es[0]);
      OnlyLastCompletionPosts(Apply(s, es[0]), es[1..]);
    }
  }

  lemma PostNeedsCloseStep(s: State, e: Event)
    requires Enabled(s, e)
    ensures s.rcvClosed ==> Apply(s, e).rcvClosed
    ensures !s.rcvClosed
            ==> One(e.PostFromSend?) + Apply(s, e).sawClosed + Apply(s, e).sendPosting <= s.sawClosed + s.sendPosting
  {
  }

  lemma PostNeedsPendingStep(s: State, e: Event)
    requires Enabled(s, e)
    ensures s.pending <= Apply(s, e).pending
    ensures s.pending == 0 ==> One(e.PostFromSend?) + Apply(s, e).sendPosting <= s.sendPosting
  {
    if e.ReadPending? {
      assert s.pending == 0 ==> Apply(s, e).sendPosting == s.sendPosting;
    }
  }

  /**
  And it posts only if it saw the receive closed and a Disconnect pending: up to
  the close, and up to the first Disconnect that is counted, no completion comes
  newly to post.
  */
  lemma {:induction false} PostNeedsBoth(s: State, es: seq<Event>)
    requires Legal(s, es)
    ensures s.rcvClosed ==> After(s, es).rcvClosed
    ensures s.pending <= After(s, es).pending
    ensures !After(s, es).rcvClosed ==> Posts(es) <= s.sawClosed + s.sendPosting
    ensures After(s, es).pending == 0 ==> Posts(es) <= s.sendPosting
    decreases |es|
  {
    hide Enabled, Apply;
    if |es| != 0 {
      PostNeedsCloseStep(s, es[0]);
      PostNeedsPendingStep(s, es[0]);
      PostNeedsBoth(Apply(s, es[0]), es[1..]);
    }
  }

  // -------------------------------------------------------- how the receive comes to close

  lemma RefusedStep(s: State, e: Event)
    requires Enabled(s, e)
    ensures Refused(Apply(s, e)) <==> Refused(s) || e == FirstReceive(false)
  {
  }

  /** The receive counts as refused exactly if it was: the peer's close comes only after a first receive. */
  lemma {:induction false} RefusedExactly(s: State, es: seq<Event>)
    requires Legal(s, es)
    ensures Refused(After(s, es)) <==> Refused(s) || FirstReceive(false) in es
    decreases |es|
  {
    hide Enabled, Apply, Refused;
    if |es| != 0 {
      RefusedStep(s, es[0]);
      RefusedExactly(Apply(s, es[0]), es[1..]);
      assert FirstReceive(false) in es <==> es[0] == FirstReceive(false) || FirstReceive(false) in es[1..];
    }
  }
}
