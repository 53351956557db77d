/** What clients can see is enough: clients of `a` that go by their own requests and the answers to them are
    polite, so the bytes are conserved. */
module OcsClients {
  import opened Ocs
  import opened OcsMachine
  import opened OcsConservation
  import opened Sums

  /** What the clients of `a` know about a session: the bytes left of its last grant, and whether that grant is
      still whole. */
  datatype Grant = Grant(left: nat, whole: bool)

  type Wallet = map<string, Grant>

  function Left(w: Wallet, session: string): nat {
    if session in w then w[session].left else 0
  }

  /** What an answer teaches. */
  function Learn(w: Wallet, r: Request, reply: Reply): Wallet {
    if r.Terminate? then (if reply.failed then w else w - {r.session})
    else if reply.code == SUCCESS then w[r.session := Grant(reply.granted, true)]
    else if r.Update? && r.session in w then w[r.session := Charged(w[r.session], r.used)]
    else w
  }

  /** A grant after an UPDATE that was charged and answered 4012. */
  function Charged(g: Grant, used: nat): Grant {
    Grant(if g.left < used then 0 else g.left - used, g.whole && used == 0)
  }

  /** The wallet after an event; only answers to requests of `a` change it. */
  ghost function Hear(a: string, s: State, w: Wallet, e: Event): Wallet {
    if e.Run? && e.thread < |s.threads| && s.threads[e.thread].request.subscriber == a
       && !s.threads[e.thread].at.Finished?
    then
      var place := Advance(s.ledger, s.threads[e.thread]).1;
      if place.Finished? then Learn(w, s.threads[e.thread].request, place.reply) else w
    else w
  }

  ghost function Heard(a: string, s: State, w: Wallet, es: seq<Event>): Wallet
    decreases |es|
  {
    if es == [] then w else Heard(a, Step(s, es[0]), Hear(a, s, w, es[0]), es[1..])
  }

  /** The rules of conduct. Session ids belong to one subscriber each (`owner`); a session has one request at a
      time; an UPDATE of `a` reports no more than is left of the last grant; a TERMINATE of `a` closes a session
      only while its last grant is whole. At most `limit` releases of `a` are between refund and debit. */
  ghost predicate Courteous(a: string, owner: string -> string, s: State, w: Wallet, limit: nat, e: Event) {
    match e
    case Call(request) =>
      && owner(request.session) == request.subscriber
      && (forall i :: 0 <= i < |s.threads| && !s.threads[i].at.Finished? ==>
            s.threads[i].request.session != request.session)
      && (request.subscriber == a && request.Update? ==> request.used <= Left(w, request.session))
      && (request.subscriber == a && request.Terminate? && request.session in w ==> w[request.session].whole)
    case Run(t) =>
      t < |s.threads| && s.threads[t].request.subscriber == a && s.threads[t].at.AddRefund? ==>
        Sum(s.threads, Pending(a)) < limit
  }

  ghost predicate CourteousRun(a: string, owner: string -> string, s: State, w: Wallet, limit: nat, es: seq<Event>)
    decreases |es|
  {
    es == [] || (Courteous(a, owner, s, w, limit, es[0])
                 && CourteousRun(a, owner, Step(s, es[0]), Hear(a, s, w, es[0]), limit, es[1..]))
  }

  /** Wallet, books and engine agree on a session: it is known exactly if it is stored, and what is left is what
      it still holds. */
  ghost predicate Settled(l: Ledger, b: Books, w: Wallet, session: string) {
    && (session in w <==> session in l.sessions)
    && Left(w, session) == Get(b.escrow, session)
    && (session in w && w[session].whole ==> l.sessions[session].quota == w[session].left)
  }

  /** The same while one request on the session is running. */
  ghost predicate Underway(l: Ledger, b: Books, w: Wallet, th: Thread) {
    var session := th.request.session;
    match th.at
    case ReadTotal => if th.request.Update? then Committed(l, b, w, th.request) else Settled(l, b, w, session)
    case SwapTotal(_) => if th.request.Update? then Committed(l, b, w, th.request) else Settled(l, b, w, session)
    case AddReserved(_) => true
    case StoreSession(_) => true
    case AddRefund(_) => true
    case ReadDebit(_) => true
    case SwapDebit(_, _) => true
    case DropSession => true
    case Finished(_) => true
    case _ =>
      && Settled(l, b, w, session)
      && (th.request.Update? ==> th.request.used <= Left(w, session))
      && (th.request.Terminate? && session in w ==> w[session].whole)
  }

  /** The use of an UPDATE has been taken from the books, and its client has not been told yet. */
  ghost predicate Committed(l: Ledger, b: Books, w: Wallet, r: Request)
    requires r.Update?
  {
    && (r.session in w <==> r.session in l.sessions)
    && Left(w, r.session) == Get(b.escrow, r.session) + r.used
    && (r.session in w && w[r.session].whole ==> l.sessions[r.session].quota == w[r.session].left)
  }

  ghost predicate Idle(threads: seq<Thread>, session: string) {
    forall i :: 0 <= i < |threads| && !threads[i].at.Finished? ==> threads[i].request.session != session
  }

  ghost predicate Informed(a: string, owner: string -> string, s: State, b: Books, w: Wallet) {
    && Kinds(s.threads)
    && (forall i :: 0 <= i < |s.threads| ==> owner(s.threads[i].request.session) == s.threads[i].request.subscriber)
    && (forall i :: 0 <= i < |s.threads| && s.threads[i].request.subscriber == a ==>
          Underway(s.ledger, b, w, s.threads[i]))
    && (forall k :: owner(k) == a && Idle(s.threads, k) ==> Settled(s.ledger, b, w, k))
  }

  /** An action concerns only its thread's session. */
  lemma OtherWalletsStay(a: string, s: State, b: Books, w: Wallet, t: nat, session: string)
    requires t < |s.threads| && session != s.threads[t].request.session
    ensures session in Hear(a, s, w, Run(t)) <==> session in w
    ensures session in w ==> Hear(a, s, w, Run(t))[session] == w[session]
  {
  }

  /** Nothing about a session changes under another session's action. */
  lemma SettledStays(a: string, s: State, b: Books, w: Wallet, t: nat, session: string)
    requires t < |s.threads| && session != s.threads[t].request.session && Settled(s.ledger, b, w, session)
    ensures Settled(Step(s, Run(t)).ledger, Record(a, s, b, Run(t)), Hear(a, s, w, Run(t)), session)
  {
    OtherSessionsStay(a, s, b, t, session);
    OtherWalletsStay(a, s, b, w, t, session);
    hide Step, Record, Hear;
  }

  lemma UnderwayStays(a: string, s: State, b: Books, w: Wallet, t: nat, th: Thread)
    requires t < |s.threads| && th.request.session != s.threads[t].request.session && Underway(s.ledger, b, w, th)
    ensures Underway(Step(s, Run(t)).ledger, Record(a, s, b, Run(t)), Hear(a, s, w, Run(t)), th)
  {
    OtherSessionsStay(a, s, b, t, th.request.session);
    OtherWalletsStay(a, s, b, w, t, th.request.session);
    hide Step, Record, Hear;
  }

  /** A thread's own action keeps what is known about its session, and its answer settles the session. */
  lemma OwnSession(a: string, s: State, b: Books, w: Wallet, t: nat)
    requires a in s.ledger.accounts && t < |s.threads| && s.threads[t].request.subscriber == a
    requires Kind(s.threads[t]) && Underway(s.ledger, b, w, s.threads[t])
    requires Exact(s.ledger.accounts[a], s.threads[t])
    requires !s.threads[t].at.Finished?
    ensures
      var s', b', w' := Step(s, Run(t)), Record(a, s, b, Run(t)), Hear(a, s, w, Run(t));
      && Underway(s'.ledger, b', w', s'.threads[t])
      && (s'.threads[t].at.Finished? ==> Settled(s'.ledger, b', w', s'.threads[t].request.session))
  {
  }

  lemma InformedCall(a: string, owner: string -> string, s: State, b: Books, w: Wallet, limit: nat, request: Request)
    requires Informed(a, owner, s, b, w) && Courteous(a, owner, s, w, limit, Call(request))
    ensures Informed(a, owner, Step(s, Call(request)), b, w)
  {
    var s' := Step(s, Call(request));
    forall k | owner(k) == a && Idle(s'.threads, k)
      ensures Settled(s.ledger, b, w, k)
    {
      assert forall i :: 0 <= i < |s.threads| ==> s'.threads[i] == s.threads[i];
      assert Idle(s.threads, k);
    }
    assert Idle(s.threads, request.session);
  }

  lemma InformedRun(a: string, owner: string -> string, s: State, b: Books, w: Wallet, t: nat)
    requires a in s.ledger.accounts && Informed(a, owner, s, b, w) && Exclusive(s.threads) && t < |s.threads|
    requires !s.threads[t].at.Finished?
    requires s.threads[t].request.subscriber == a ==> Exact(s.ledger.accounts[a], s.threads[t])
    ensures Informed(a, owner, Step(s, Run(t)), Record(a, s, b, Run(t)), Hear(a, s, w, Run(t)))
  {
    var s', b', w' := Step(s, Run(t)), Record(a, s, b, Run(t)), Hear(a, s, w, Run(t));
    var th := s.threads[t];
    StepKeepsKinds(s, Run(t));
    assert Kind(th) && owner(th.request.session) == th.request.subscriber;
    if th.request.subscriber == a {
      OwnSession(a, s, b, w, t);
    }
    assert s'.threads == s.threads[t := th.(at := s'.threads[t].at)];
    hide Step, Record, Hear, Underway, Settled, Kind;
    forall i | 0 <= i < |s'.threads| && i != t && s.threads[i].request.subscriber == a
      ensures Underway(s'.ledger, b', w', s'.threads[i])
    {
      if s.threads[i].at.Finished? {
        FinishedIsUnderway(s'.ledger, b', w', s.threads[i]);
      } else {
        UnderwayStays(a, s, b, w, t, s.threads[i]);
      }
    }
    forall k | owner(k) == a && Idle(s'.threads, k)
      ensures Settled(s'.ledger, b', w', k)
    {
      if k != th.request.session {
        assert Idle(s.threads, k) by {
          assert forall i :: 0 <= i < |s.threads| && i != t ==> s.threads[i] == s'.threads[i];
        }
        SettledStays(a, s, b, w, t, k);
      } else {
        assert s'.threads[t].at.Finished?;
      }
    }
  }

  lemma FinishedIsUnderway(l: Ledger, b: Books, w: Wallet, th: Thread)
    requires th.at.Finished?
    ensures Underway(l, b, w, th)
  {
  }

  /** What the wallet says makes a courteous event polite. */
  lemma CourteousEventIsPolite(a: string, owner: string -> string, s: State, b: Books, w: Wallet, limit: nat, e: Event)
    requires Informed(a, owner, s, b, w) && Courteous(a, owner, s, w, limit, e)
    ensures Polite(a, s, b, limit, e)
  {
    if e.Call? {
      assert Idle(s.threads, e.request.session);
      if e.request.subscriber == a {
        assert Settled(s.ledger, b, w, e.request.session);
      }
    }
  }

  lemma InformedStep(a: string, owner: string -> string, most: nat, limit: nat, s: State, b: Books, w: Wallet, e: Event)
    requires Audited(a, most, limit, s, b) && most * limit + most < TWO_64
    requires Informed(a, owner, s, b, w) && Courteous(a, owner, s, w, limit, e)
    ensures Informed(a, owner, Step(s, e), Record(a, s, b, e), Hear(a, s, w, e))
  {
    match e
    case Call(request) =>
      InformedCall(a, owner, s, b, w, limit, request);
    case Run(t) =>
      if t < |s.threads| && !s.threads[t].at.Finished? {
        if s.threads[t].request.subscriber == a {
          AuditedBounds(a, most, limit, s, b);
          FundedIsExact(a, most, limit, s, b, t);
        }
        InformedRun(a, owner, s, b, w, t);
      } else if t < |s.threads| {
        assert s.threads[t := s.threads[t]] == s.threads;
      }
  }

  /** Courteous clients are polite, and stay informed. */
  lemma {:induction false} CourteousIsPolite(a: string, owner: string -> string, most: nat, limit: nat,
                                             s: State, b: Books, w: Wallet, es: seq<Event>)
    requires Audited(a, most, limit, s, b) && most * limit + most < TWO_64
    requires Informed(a, owner, s, b, w) && CourteousRun(a, owner, s, w, limit, es)
    ensures PoliteRun(a, s, b, limit, es)
    ensures Informed(a, owner, Exec(s, es), Recorded(a, s, b, es), Heard(a, s, w, es))
    decreases |es|
  {
    if es != [] {
      CourteousEventIsPolite(a, owner, s, b, w, limit, es[0]);
      AuditedStep(a, most, limit, s, b, es[0]);
      InformedStep(a, owner, most, limit, s, b, w, es[0]);
      CourteousIsPolite(a, owner, most, limit, Step(s, es[0]), Record(a, s, b, es[0]), Hear(a, s, w, es[0]), es[1..]);
    }
  }

  /** Conservation in the clients' own terms: if the clients of `a` go by what they were answered, the bytes add
      up, and once all is quiet the reserve holds at least what they believe is left of each grant: the books
      hold exactly that for every session of `a`. */
  lemma ConservationForCourteousClients(a: string, owner: string -> string, ledger: Ledger, limit: nat, es: seq<Event>)
    requires a in ledger.accounts && ledger.accounts[a].reserved == 0 && ledger.sessions == map[]
    requires ledger.accounts[a].total * limit + ledger.accounts[a].total < TWO_64
    requires CourteousRun(a, owner, State(ledger, []), map[], limit, es)
    ensures
      var s := Exec(State(ledger, []), es);
      var b := Recorded(a, State(ledger, []), EMPTY_BOOKS, es);
      var w := Heard(a, State(ledger, []), map[], es);
      && a in s.ledger.accounts
      && var now := s.ledger.accounts[a];
      && now.total + now.reserved + Sum(s.threads, InFlight(a)) + Spent(a, State(ledger, []), es)
         == ledger.accounts[a].total + Sum(s.threads, Refunding(a))
      && now.reserved == Total(b.escrow) + Sum(s.threads, Held(a)) + b.stranded
      && HeldBySessions(a, s.ledger, b)
      && (forall k :: owner(k) == a && Idle(s.threads, k) ==>
            (k in w <==> k in s.ledger.sessions) && Get(b.escrow, k) == Left(w, k) <= now.reserved)
  {
    var s0, most := State(ledger, []), ledger.accounts[a].total;
    CourteousIsPolite(a, owner, most, limit, s0, EMPTY_BOOKS, map[], es);
    ConservationWithRefunds(a, ledger, limit, es);
    var s, b, w := Exec(s0, es), Recorded(a, s0, EMPTY_BOOKS, es), Heard(a, s0, map[], es);
    AuditedExec(a, most, limit, s0, EMPTY_BOOKS, es);
    AuditedBounds(a, most, limit, s, b);
    hide Exec, Recorded, Heard, PoliteRun, CourteousRun, Spent;
    forall k | owner(k) == a && Idle(s.threads, k)
      ensures (k in w <==> k in s.ledger.sessions) && Get(b.escrow, k) == Left(w, k) <= s.ledger.accounts[a].reserved
    {
      assert Settled(s.ledger, b, w, k);
      EscrowCovers(b.escrow, k);
    }
  }
}
