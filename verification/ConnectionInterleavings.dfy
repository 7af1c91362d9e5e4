/**
`Connection::HasOutstandingContext` reads two things one after the other while
other threads create, remove and close. What its answer still means, and why
the last of several parties to let go is always told so.
*/
module ConnectionInterleavings {

  type Context = nat
  type Thread = nat

  // ------------------------------------------------------- the two reads of one call

  datatype State = State(
    rcvClosed: bool,
    sends: set<Context>,
    between: set<Thread> // callers between their two reads
  )

  datatype Event =
    | Create(c: Context)
    | Remove(c: Context)
    | CloseRcv
    | FirstRead(t: Thread)
    | SecondRead(t: Thread)

  datatype Answer = NoAnswer | Answer(outstanding: bool)

  predicate Enabled(s: State, e: Event) {
    match e
    case FirstRead(t) => t !in s.between
    case SecondRead(t) => t in s.between
    case _ => true
  }

  function Apply(s: State, e: Event): State {
    match e
    case Create(c) => s.(sends := s.sends + {c})
    case Remove(c) => s.(sends := s.sends - {c})
    case CloseRcv => s.(rcvClosed := true)
    case FirstRead(t) => if s.rcvClosed then s.(between := s.between + {t}) else s
    case SecondRead(t) => s.(between := s.between - {t})
  }

  /** What the caller gets back at this step, if the call ends with it. */
  function Returned(s: State, e: Event): Answer {
    match e
    case FirstRead(_) => if s.rcvClosed then NoAnswer else Answer(true)
    case SecondRead(_) => Answer(|s.sends| > 0)
    case _ => NoAnswer
  }

  /** What an atomic version of the call would answer. */
  predicate Outstanding(s: State) {
    !s.rcvClosed || s.sends != {}
  }

  ghost predicate Legal(s: State, es: seq<Event>)
    decreases |es|
  {
    |es| == 0 || (Enabled(s, es[0]) && Legal(Apply(s, es[0]), es[1..]))
  }

  function After(s: State, es: seq<Event>): State
    decreases |es|
  {
    if |es| == 0 then s else After(Apply(s, es[0]), es[1..])
  }

  predicate PassedFirstRead(s: State) {
    s.between != {} ==> s.rcvClosed
  }

  lemma {:induction false} PassedFirstReadAlways(s: State, es: seq<Event>)
    requires PassedFirstRead(s) && Legal(s, es)
    ensures PassedFirstRead(After(s, es))
    decreases |es|
  {
    if |es| != 0 {
      PassedFirstReadAlways(Apply(s, es[0]), es[1..]);
    }
  }

  /**
  Every call linearizes at its last read: in every interleaving, whatever it
  returns, true or false, is what an atomic call would return at that moment.
  */
  lemma AnswersLinearize(rcvClosed: bool, sends: set<Context>, es: seq<Event>, e: Event)
    requires Legal(State(rcvClosed, sends, {}), es)
    requires Enabled(After(State(rcvClosed, sends, {}), es), e)
    ensures var s := After(State(rcvClosed, sends, {}), es);
            Returned(s, e).Answer? ==> Returned(s, e).outstanding == Outstanding(s)
  {
    PassedFirstReadAlways(State(rcvClosed, sends, {}), es);
  }

  function One(b: bool): nat {
    if b then 1 else 0
  }

  /** How many calls of this caller have begun. */
  function Begun(es: seq<Event>, t: Thread): nat
    decreases |es|
  {
    if |es| == 0 then 0 else One(es[0] == FirstRead(t)) + Begun(es[1..], t)
  }

  /** How many answers this caller has been given. */
  function Answers(s: State, es: seq<Event>, t: Thread): nat
    decreases |es|
  {
    if |es| == 0 then 0
    else
      var mine := (es[0] == FirstRead(t) || es[0] == SecondRead(t)) && Returned(s, es[0]).Answer?;
      One(mine) + Answers(Apply(s, es[0]), es[1..], t)
  }

  /** A first read answers or leaves the caller between its reads, never both; a second read answers. */
  lemma ReadAnswersOrWaits(s: State, t: Thread)
    ensures Enabled(s, FirstRead(t))
            ==> (Returned(s, FirstRead(t)).Answer? <==> t !in Apply(s, FirstRead(t)).between)
    ensures Enabled(s, SecondRead(t))
            ==> Returned(s, SecondRead(t)).Answer? && t !in Apply(s, SecondRead(t)).between
  {
  }

  /** In every run each call that is not between its two reads has been answered exactly once. */
  lemma {:induction false} EveryCallAnsweredOnce(s: State, es: seq<Event>, t: Thread)
    requires Legal(s, es)
    ensures Answers(s, es, t) + One(t in After(s, es).between) == Begun(es, t) + One(t in s.between)
    decreases |es|
  {
    if |es| != 0 {
      ReadAnswersOrWaits(s, t);
      EveryCallAnsweredOnce(Apply(s, es[0]), es[1..], t);
    }
  }

  /**
  Calls overlap with each other and with everything else: two that have both seen
  the receive closed are told different things by what happens in between.
  */
  lemma OverlappingCallsDiffer(c: Context, d: Context)
    ensures var s := State(true, {c}, {});
            var es := [FirstRead(0), FirstRead(1), Remove(c)];
            var fs := [SecondRead(0), Create(d)];
            && Legal(s, es) && Legal(After(s, es), fs) && Enabled(After(After(s, es), fs), SecondRead(1))
            && Returned(After(s, es), SecondRead(0)) == Answer(false)
            && Returned(After(After(s, es), fs), SecondRead(1)) == Answer(true)
  {
    var s := State(true, {c}, {});
    var es, fs := [FirstRead(0), FirstRead(1), Remove(c)], [SecondRead(0), Create(d)];
    var s1 := Apply(s, FirstRead(0));
    var s2 := Apply(s1, FirstRead(1));
    var s3 := Apply(s2, Remove(c));
    var s4 := Apply(s3, SecondRead(0));
    var s5 := Apply(s4, Create(d));
    assert s3.sends == {} && s5.sends == {d} && s5.between == {1};
    StartsWith(s2, Remove(c), []);
    StartsWith(s1, FirstRead(1), [Remove(c)]);
    StartsWith(s, FirstRead(0), [FirstRead(1), Remove(c)]);
    StartsWith(s4, Create(d), []);
    StartsWith(s3, SecondRead(0), [Create(d)]);
    assert [FirstRead(0)] + ([FirstRead(1)] + ([Remove(c)] + [])) == es;
    assert [FirstRead(1)] + ([Remove(c)] + []) == [FirstRead(1), Remove(c)];
    assert [SecondRead(0)] + ([Create(d)] + []) == fs;
  }

  lemma StartsWith(s: State, e: Event, rest: seq<Event>)
    requires Enabled(s, e) && Legal(Apply(s, e), rest)
    ensures Legal(s, [e] + rest) && After(s, [e] + rest) == After(Apply(s, e), rest)
  {
    assert ([e] + rest)[1..] == rest;
  }

  ghost predicate LastlyCreated(es: seq<Event>, c: Context) {
    exists k :: 0 <= k < |es| && es[k] == Create(c) && Remove(c) !in es[k + 1..]
  }

  /** What the reads look at is what the run has done: sends created and not removed since, and the close. */
  lemma {:induction false} SharedIsHistory(s: State, es: seq<Event>, c: Context)
    requires Legal(s, es)
    ensures c in After(s, es).sends <==> LastlyCreated(es, c) || (c in s.sends && Remove(c) !in es)
    ensures After(s, es).rcvClosed <==> s.rcvClosed || CloseRcv in es
    decreases |es|
  {
    if |es| != 0 {
      var e, t, rest := es[0], Apply(s, es[0]), es[1..];
      SharedIsHistory(t, rest, c);
      assert es == [e] + rest;
      LaterCreated(e, rest, c);
    }
  }

  lemma LaterCreated(e: Event, rest: seq<Event>, c: Context)
    ensures LastlyCreated([e] + rest, c) <==> LastlyCreated(rest, c) || (e == Create(c) && Remove(c) !in rest)
  {
    var es := [e] + rest;
    assert es[1..] == rest;
    if k :| 0 <= k < |rest| && rest[k] == Create(c) && Remove(c) !in rest[k + 1..] {
      assert es[k + 1] == Create(c) && es[k + 2..] == rest[k + 1..];
    }
    if k :| 0 < k < |es| && es[k] == Create(c) && Remove(c) !in es[k + 1..] {
      assert rest[k - 1] == Create(c) && rest[k..] == es[k + 1..];
    }
    if e == Create(c) && Remove(c) !in rest {
      assert es[0] == Create(c) && Remove(c) !in es[0 + 1..];
    }
  }

  // ------------------------------------------------------------ parties that let go

  /** A party is named by the one thing it has to let go of. */
  datatype Party = Receiver | Sender(c: Context)

  datatype Progress = Holding | LetGo | SawClosed | Told(outstanding: bool)

  /** Every party lets go of its own thing and then asks whether anything is left. */
  datatype Shared = Shared(
    rcvClosed: bool,
    sends: set<Context>,
    progress: map<Party, Progress>
  )

  datatype Move =
    | Join(c: Context)
    | Release(p: Party)
    | ReadFlag(p: Party)
    | ReadCount(p: Party)

  predicate At(s: Shared, p: Party, g: Progress) {
    p in s.progress && s.progress[p] == g
  }

  /** Senders join only before anybody has let go. */
  ghost predicate CanMove(s: Shared, m: Move) {
    match m
    case Join(c) => Sender(c) !in s.progress && forall q :: q in s.progress ==> s.progress[q] == Holding
    case Release(p) => At(s, p, Holding)
    case ReadFlag(p) => At(s, p, LetGo)
    case ReadCount(p) => At(s, p, SawClosed)
  }

  function DoMove(s: Shared, m: Move): Shared {
    match m
    case Join(c) => s.(sends := s.sends + {c}, progress := s.progress[Sender(c) := Holding])
    case Release(Receiver) => s.(rcvClosed := true, progress := s.progress[Receiver := LetGo])
    case Release(Sender(c)) => s.(sends := s.sends - {c}, progress := s.progress[Sender(c) := LetGo])
    case ReadFlag(p) => s.(progress := s.progress[p := if s.rcvClosed then SawClosed else Told(true)])
    case ReadCount(p) => s.(progress := s.progress[p := Told(|s.sends| > 0)])
  }

  const START := Shared(false, {}, map[Receiver := Holding])

  predicate IsOpen(s: Shared, p: Party) {
    match p
    case Receiver => !s.rcvClosed
    case Sender(c) => c in s.sends
  }

  predicate AllClosed(s: Shared) {
    s.rcvClosed && s.sends == {}
  }

  /** Exactly the holding parties keep something open. */
  ghost predicate Paired(s: Shared) {
    forall p :: IsOpen(s, p) <==> At(s, p, Holding)
  }

  /** A party that will not hear that something is outstanding, or has not. */
  predicate Hopeful(s: Shared, p: Party) {
    p in s.progress && (s.progress[p] == LetGo || s.progress[p] == SawClosed || s.progress[p] == Told(false))
  }

  ghost predicate Honest(s: Shared) {
    && (forall p :: At(s, p, SawClosed) ==> s.rcvClosed)
    && (forall p :: At(s, p, Told(false)) ==> AllClosed(s))
    && (AllClosed(s) ==> exists p :: Hopeful(s, p))
  }

  ghost predicate Inv(s: Shared) {
    Paired(s) && Honest(s)
  }

  lemma PairedStep(s: Shared, m: Move)
    requires Paired(s) && CanMove(s, m)
    ensures Paired(DoMove(s, m))
  {
    var t := DoMove(s, m);
    forall p
      ensures IsOpen(t, p) <==> At(t, p, Holding)
    {
      assert IsOpen(s, p) <==> At(s, p, Holding);
    }
  }

  lemma HonestStep(s: Shared, m: Move)
    requires Inv(s) && CanMove(s, m)
    ensures Honest(DoMove(s, m))
  {
    var t := DoMove(s, m);
    assert m.Join? ==> m.c in t.sends && forall q :: q in t.progress ==> t.progress[q] == Holding;
    forall p | At(t, p, SawClosed)
      ensures t.rcvClosed
    {
      assert At(s, p, SawClosed) || m == ReadFlag(p);
    }
    forall p | At(t, p, Told(false))
      ensures AllClosed(t)
    {
      assert At(s, p, Told(false)) || m == ReadCount(p);
    }
    if AllClosed(t) {
      if m.Release? {
        assert Hopeful(t, m.p);
      } else {
        var p :| Hopeful(s, p);
        assert Hopeful(t, p);
      }
    }
  }

  ghost predicate LegalMoves(s: Shared, ms: seq<Move>)
    decreases |ms|
  {
    |ms| == 0 || (CanMove(s, ms[0]) && LegalMoves(DoMove(s, ms[0]), ms[1..]))
  }

  function AfterMoves(s: Shared, ms: seq<Move>): Shared
    decreases |ms|
  {
    if |ms| == 0 then s else AfterMoves(DoMove(s, ms[0]), ms[1..])
  }

  lemma {:induction false} InvAlways(s: Shared, ms: seq<Move>)
    requires Inv(s) && LegalMoves(s, ms)
    ensures Inv(AfterMoves(s, ms))
    decreases |ms|
  {
    hide DoMove, CanMove, Paired, Honest;
    if |ms| != 0 {
      PairedStep(s, ms[0]);
      HonestStep(s, ms[0]);
      InvAlways(DoMove(s, ms[0]), ms[1..]);
    }
  }

  /**
  Neither early nor lost: in every interleaving nobody is told that nothing is
  outstanding while the receive or a send is open, and once everybody has been
  told something, somebody was told so.
  */
  lemma LastPartyIsTold(ms: seq<Move>)
    requires LegalMoves(START, ms)
    ensures var s := AfterMoves(START, ms);
            && (forall p :: At(s, p, Told(false)) ==> s.rcvClosed && s.sends == {})
            && ((forall p :: p in s.progress ==> s.progress[p].Told?) ==> exists p :: At(s, p, Told(false)))
  {
    InvAlways(START, ms);
    var s := AfterMoves(START, ms);
    if forall p :: p in s.progress ==> s.progress[p].Told? {
      assert !IsOpen(s, Receiver);
      forall c | c in s.sends
        ensures false
      {
        assert IsOpen(s, Sender(c));
      }
      var p :| Hopeful(s, p);
      assert At(s, p, Told(false));
    }
  }

  /** How many moves a party still has. */
  function Left(g: Progress): nat {
    match g
    case Holding => 3
    case LetGo => 2
    case SawClosed => 1
    case Told(_) => 0
  }

  function MoveOf(p: Party, g: Progress): Move {
    match g
    case Holding => Release(p)
    case LetGo => ReadFlag(p)
    case _ => ReadCount(p)
  }

  /**
  Nobody waits for anybody: a party that has not been told anything can always
  take its own next move, which brings it nearer and touches no other party; and a
  sender can join while all hold on.
  */
  lemma NobodyStuck(s: Shared, p: Party)
    ensures p in s.progress && !s.progress[p].Told?
            ==> var m := MoveOf(p, s.progress[p]);
                && CanMove(s, m) && p in DoMove(s, m).progress
                && Left(DoMove(s, m).progress[p]) < Left(s.progress[p])
                && DoMove(s, m).progress - {p} == s.progress - {p}
    ensures p.Sender? && p !in s.progress && (forall q :: q in s.progress ==> s.progress[q] == Holding)
            ==> CanMove(s, Join(p.c))
  {
  }

  /** Hence a party left to move alone is told after at most three moves, from every state. */
  lemma {:induction false} GetsTold(s: Shared, p: Party) returns (ms: seq<Move>)
    requires p in s.progress
    ensures LegalMoves(s, ms) && |ms| <= 3
    ensures p in AfterMoves(s, ms).progress && AfterMoves(s, ms).progress[p].Told?
    ensures AfterMoves(s, ms).progress - {p} == s.progress - {p} && |ms| <= Left(s.progress[p])
    decreases Left(s.progress[p])
  {
    if s.progress[p].Told? {
      ms := [];
    } else {
      var m := MoveOf(p, s.progress[p]);
      NobodyStuck(s, p);
      var rest := GetsTold(DoMove(s, m), p);
      ms := [m] + rest;
      assert ms[1..] == rest;
    }
  }

  /**
  Each party's two reads: the first tells it that something is outstanding
  exactly if the receive is open and sends it on otherwise; the second always
  tells it, and truly.
  */
  lemma ReadsTell(s: Shared, p: Party)
    requires Inv(s)
    ensures CanMove(s, ReadFlag(p))
            ==> DoMove(s, ReadFlag(p)).progress[p] == if s.rcvClosed then SawClosed else Told(true)
    ensures CanMove(s, ReadCount(p)) ==> DoMove(s, ReadCount(p)).progress[p] == Told(!AllClosed(s))
  {
  }
}
