/** Every interleaving of the engine's atomic actions. A thread is one running request; a step is one
    atomic load, compare-and-swap, add, map load, map store or map delete. */
module OcsMachine {
  import opened Numbers
  import opened Ocs

  /** Where a request stands, with what it has read so far. */
  datatype Place =
    | Start
    | ReadReserved
    | SwapReserved(seen: uint64)
    | ReadTotal
    | SwapTotal(seen: uint64)
    | AddReserved(granted: uint64)
    | StoreSession(granted: uint64)
    | FindSession
    | AddRefund(quota: uint64)
    | ReadDebit(quota: uint64)
    | SwapDebit(quota: uint64, seen: uint64)
    | DropSession
    | Finished(reply: Reply)

  datatype Thread = Thread(request: Request, at: Place)

  datatype State = State(ledger: Ledger, threads: seq<Thread>)

  datatype Event = Call(request: Request) | Run(thread: nat)

  function SetTotal(l: Ledger, subscriber: string, total: uint64): Ledger
    requires subscriber in l.accounts
  {
    l.(accounts := l.accounts[subscriber := l.accounts[subscriber].(total := total)])
  }

  function SetReserved(l: Ledger, subscriber: string, reserved: uint64): Ledger
    requires subscriber in l.accounts
  {
    l.(accounts := l.accounts[subscriber := l.accounts[subscriber].(reserved := reserved)])
  }

  /** The next atomic action of one thread. The account is looked up once, first; since accounts are
      never removed, asking again at every action changes nothing. */
  function Advance(l: Ledger, th: Thread): (Ledger, Place) {
    var sub := th.request.subscriber;
    var used := Used(th.request);
    if th.at.Finished? then (l, th.at)
    else if sub !in l.accounts then (l, Finished(REFUSED))
    else
      var account := l.accounts[sub];
      match th.at
      case Start =>
        (l, if th.request.Initial? then ReadTotal else if th.request.Update? then ReadReserved else FindSession)
      case ReadReserved => (l, SwapReserved(account.reserved))
      case SwapReserved(seen) =>
        if account.reserved == seen
        then (SetReserved(l, sub, seen - Min(used, seen)), ReadTotal)
        else (l, ReadReserved)
      case ReadTotal =>
        (l, if account.total == 0 then Finished(GRANTED_NOTHING) else SwapTotal(account.total))
      case SwapTotal(seen) =>
        var granted := Min(Requested(th.request), seen);
        if account.total == seen
        then (SetTotal(l, sub, seen - granted), AddReserved(granted))
        else (l, ReadTotal)
      case AddReserved(granted) =>
        (SetReserved(l, sub, Wrap(account.reserved + granted)), StoreSession(granted))
      case StoreSession(granted) =>
        (l.(sessions := l.sessions[th.request.session := Session(sub, th.request.chargingKey, granted)]),
         Finished(Reply(granted, SUCCESS, false)))
      case FindSession =>
        (l, if th.request.session in l.sessions then AddRefund(l.sessions[th.request.session].quota)
            else Finished(REFUSED))
      case AddRefund(quota) =>
        (SetTotal(l, sub, Wrap(account.total + Refund(quota, used))), ReadDebit(quota))
      case ReadDebit(quota) => (l, SwapDebit(quota, account.reserved))
      case SwapDebit(quota, seen) =>
        if account.reserved == seen
        then (SetReserved(l, sub, seen - Min(quota, seen)), DropSession)
        else (l, ReadDebit(quota))
      case DropSession =>
        (l.(sessions := l.sessions - {th.request.session}), Finished(RELEASED))
  }

  function Step(s: State, e: Event): State {
    match e
    case Call(request) => s.(threads := s.threads + [Thread(request, Start)])
    case Run(t) =>
      if t < |s.threads| then
        var (ledger, place) := Advance(s.ledger, s.threads[t]);
        State(ledger, s.threads[t := s.threads[t].(at := place)])
      else s
  }

  /** A schedule is any sequence of events; all interleavings are all schedules. */
  function Exec(s: State, es: seq<Event>): State
    decreases |es|
  {
    if es == [] then s else Exec(Step(s, es[0]), es[1..])
  }

  /** The threads stand where their kind of request can stand. */
  ghost predicate Kinds(threads: seq<Thread>) {
    forall i :: 0 <= i < |threads| ==> Kind(threads[i])
  }

  ghost predicate Kind(th: Thread) {
    match th.at
    case Start => true
    case Finished(_) => true
    case ReadReserved => th.request.Update?
    case SwapReserved(_) => th.request.Update?
    case ReadTotal => !th.request.Terminate?
    case SwapTotal(seen) => !th.request.Terminate? && seen > 0
    case AddReserved(_) => !th.request.Terminate?
    case StoreSession(_) => !th.request.Terminate?
    case _ => th.request.Terminate?
  }

  lemma StepKeepsKinds(s: State, e: Event)
    requires Kinds(s.threads)
    ensures Kinds(Step(s, e).threads)
  {
    if e.Run? && e.thread < |s.threads| {
      assert Kind(s.threads[e.thread]);
    }
  }

  /** n actions of one thread with nobody else running. */
  function Alone(l: Ledger, th: Thread, n: nat): (Ledger, Thread)
    decreases n
  {
    if n == 0 then (l, th)
    else
      var (ledger, place) := Advance(l, th);
      Alone(ledger, th.(at := place), n - 1)
  }

  /** Left alone, a request needs at most seven actions and does what the undisturbed operation says. */
  lemma AloneServes(l: Ledger, request: Request)
    ensures Alone(l, Thread(request, Start), 7) == Served(l, request)
  {
    match request
    case Initial(_, _, _, _) =>
      var r := AloneStep(l, Thread(request, Start), 7);
      if !r.1.at.Finished? {
        AloneReserves(r.0, r.1, 6);
      } else {
        AloneFinished(r.0, r.1, 6);
      }
    case Update(sub, _, _, used, _) =>
      var r1 := AloneStep(l, Thread(request, Start), 7);
      if !r1.1.at.Finished? {
        var r2 := AloneStep(r1.0, r1.1, 6);
        var r3 := AloneStep(r2.0, r2.1, 5);
        assert r3.0 == Commit(l, sub, used);
        AloneReserves(r3.0, r3.1, 4);
      } else {
        AloneFinished(r1.0, r1.1, 6);
      }
    case Terminate(_, _, _, _) =>
      AloneReleases(l, request);
  }

  function Served(l: Ledger, request: Request): (Ledger, Thread) {
    (Serve(l, request).0, Thread(request, Finished(Serve(l, request).1)))
  }

  lemma AloneReserves(l: Ledger, th: Thread, n: nat)
    requires th.request.subscriber in l.accounts && th.at.ReadTotal? && !th.request.Terminate? && n >= 4
    ensures
      var (ledger, reply) := Reserve(l, th.request.subscriber, th.request.session, th.request.chargingKey,
                                     th.request.requested);
      Alone(l, th, n) == (ledger, th.(at := Finished(reply)))
  {
    var sub := th.request.subscriber;
    var r1 := AloneStep(l, th, n);
    if l.accounts[sub].total == 0 {
      AloneFinished(r1.0, r1.1, n - 1);
    } else {
      var r2 := AloneStep(r1.0, r1.1, n - 1);
      var r3 := AloneStep(r2.0, r2.1, n - 2);
      var r4 := AloneStep(r3.0, r3.1, n - 3);
      AloneFinished(r4.0, r4.1, n - 4);
      var served := Reserve(l, sub, th.request.session, th.request.chargingKey, th.request.requested).0;
      assert r4.0.accounts == served.accounts;
    }
  }

  lemma AloneReleases(l: Ledger, request: Request)
    requires request.Terminate?
    ensures Alone(l, Thread(request, Start), 7) == Served(l, request)
  {
    var r1 := AloneStep(l, Thread(request, Start), 7);
    if r1.1.at.Finished? {
      AloneFinished(r1.0, r1.1, 6);
    } else {
      var r2 := AloneStep(r1.0, r1.1, 6);
      if r2.1.at.Finished? {
        AloneFinished(r2.0, r2.1, 5);
      } else {
        var r3 := AloneStep(r2.0, r2.1, 5);
        var r4 := AloneStep(r3.0, r3.1, 4);
        var r5 := AloneStep(r4.0, r4.1, 3);
        var r6 := AloneStep(r5.0, r5.1, 2);
        AloneFinished(r6.0, r6.1, 1);
        assert r6.0.accounts == Serve(l, request).0.accounts;
      }
    }
  }

  lemma AloneStep(l: Ledger, th: Thread, n: nat) returns (next: (Ledger, Thread))
    requires n > 0
    ensures next == (Advance(l, th).0, th.(at := Advance(l, th).1))
    ensures Alone(l, th, n) == Alone(next.0, next.1, n - 1)
  {
    next := (Advance(l, th).0, th.(at := Advance(l, th).1));
  }

  lemma {:induction false} AloneFinished(l: Ledger, th: Thread, n: nat)
    requires th.at.Finished?
    ensures Alone(l, th, n) == (l, th)
    decreases n
  {
    if n > 0 {
      AloneFinished(l, th, n - 1);
    }
  }

  /** The schedule that calls a request and then lets only it run. */
  function SoloSchedule(s: State, request: Request): seq<Event> {
    [Call(request)] + seq(7, _ => Run(|s.threads|))
  }

  /** The machine restricted to one thread at a time is the sequential engine. */
  lemma SoloRunIsSequential(s: State, request: Request)
    ensures Exec(s, SoloSchedule(s, request))
         == State(Serve(s.ledger, request).0,
                  s.threads + [Thread(request, Finished(Serve(s.ledger, request).1))])
  {
    var t := |s.threads|;
    var es := SoloSchedule(s, request);
    assert es[1..] == seq(7, _ => Run(t));
    ExecIsAlone(s.ledger, s.threads, Thread(request, Start), 7);
    AloneServes(s.ledger, request);
  }

  lemma {:induction false} ExecIsAlone(l: Ledger, others: seq<Thread>, th: Thread, n: nat)
    ensures Exec(State(l, others + [th]), seq(n, _ => Run(|others|)))
         == State(Alone(l, th, n).0, others + [Alone(l, th, n).1])
    decreases n
  {
    var es := seq(n, _ => Run(|others|));
    if n > 0 {
      var (ledger, place) := Advance(l, th);
      assert (others + [th])[|others| := th.(at := place)] == others + [th.(at := place)];
      assert es[1..] == seq(n - 1, _ => Run(|others|));
      ExecIsAlone(ledger, others, th.(at := place), n - 1);
    }
  }
}
