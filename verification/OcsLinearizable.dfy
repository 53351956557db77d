/** Reservations on one balance are linearizable, amid any other traffic. */
module OcsLinearizable {
  import opened Numbers
  import opened Ocs
  import opened OcsMachine

  /** One indivisible action on the balance of the subscriber: a reservation with its answer, placed at its
      successful swap or at its load of an empty balance, or a refund. */
  datatype Entry =
    | Take(thread: nat, requested: uint64, granted: uint64, code: nat)
    | Give(refund: uint64)

  /** The reservation the sequential engine would make from this balance. */
  function Answer(balance: nat, requested: uint64): (nat, nat) {
    if balance == 0 then (0, CREDIT_LIMIT_REACHED)
    else (if balance < requested then balance else requested, SUCCESS)
  }

  /** The rule is the engine's own. */
  lemma AnswerIsReserve(l: Ledger, subscriber: string, session: string, chargingKey: nat, requested: uint64)
    requires subscriber in l.accounts
    ensures
      var reply := Reserve(l, subscriber, session, chargingKey, requested).1;
      (reply.granted, reply.code) == Answer(l.accounts[subscriber].total, requested)
    ensures
      var (after, reply) := Reserve(l, subscriber, session, chargingKey, requested);
      after.accounts[subscriber].total
        == After(l.accounts[subscriber].total, Take(0, requested, reply.granted, reply.code))
  {
  }

  function After(balance: nat, e: Entry): nat {
    match e
    case Take(_, requested, _, _) => balance - Answer(balance, requested).0
    case Give(refund) => Wrap(balance + refund)
  }

  /** Running the entries one by one from `balance` gives each reservation the answer it carries. */
  ghost predicate OneByOne(balance: nat, log: seq<Entry>)
    decreases |log|
  {
    log == [] ||
    ((log[0].Take? ==> (log[0].granted, log[0].code) == Answer(balance, log[0].requested))
     && OneByOne(After(balance, log[0]), log[1..]))
  }

  ghost function Final(balance: nat, log: seq<Entry>): nat
    decreases |log|
  {
    if log == [] then balance else Final(After(balance, log[0]), log[1..])
  }

  /** What an event does to the balance of `a`, if it is its moment of truth. */
  ghost function Moment(a: string, s: State, e: Event): seq<Entry> {
    if e.Run? && e.thread < |s.threads| && s.threads[e.thread].request.subscriber == a && a in s.ledger.accounts then
      var th := s.threads[e.thread];
      var total := s.ledger.accounts[a].total;
      match th.at
      case ReadTotal =>
        if total == 0 then [Take(e.thread, Requested(th.request), 0, CREDIT_LIMIT_REACHED)] else []
      case SwapTotal(seen) =>
        if total == seen
        then [Take(e.thread, Requested(th.request), Min(Requested(th.request), seen), SUCCESS)] else []
      case AddRefund(quota) => [Give(Refund(quota, Used(th.request)))]
      case _ => []
    else []
  }

  ghost function Log(a: string, s: State, es: seq<Event>): seq<Entry>
    decreases |es|
  {
    if es == [] then [] else Moment(a, s, es[0]) + Log(a, Step(s, es[0]), es[1..])
  }

  /** The reservations of one thread in a log. */
  ghost function TakesOf(log: seq<Entry>, t: nat): seq<Entry> {
    if log == [] then []
    else (if log[0].Take? && log[0].thread == t then [log[0]] else []) + TakesOf(log[1..], t)
  }

  lemma {:induction false} TakesOfConcat(log: seq<Entry>, more: seq<Entry>, t: nat)
    ensures TakesOf(log + more, t) == TakesOf(log, t) + TakesOf(more, t)
  {
    if log == [] {
      assert log + more == more;
    } else {
      assert (log + more)[1..] == log[1..] + more;
      TakesOfConcat(log[1..], more, t);
    }
  }

  /** What a thread's place says about its reservation: none yet, or the one it got. */
  ghost function Outcome(a: string, s: State, t: nat): seq<Entry> {
    if t < |s.threads| && s.threads[t].request.subscriber == a && !s.threads[t].request.Terminate? then
      var th := s.threads[t];
      match th.at
      case AddReserved(granted) => [Take(t, Requested(th.request), granted, SUCCESS)]
      case StoreSession(granted) => [Take(t, Requested(th.request), granted, SUCCESS)]
      case Finished(reply) => [Take(t, Requested(th.request), reply.granted, reply.code)]
      case _ => []
    else []
  }

  /** An event changes the balance as its entry says, and the entry has the sequential answer. */
  lemma MomentIsSequential(a: string, s: State, e: Event)
    requires a in s.ledger.accounts && Kinds(s.threads)
    ensures a in Step(s, e).ledger.accounts
    ensures OneByOne(s.ledger.accounts[a].total, Moment(a, s, e))
    ensures Step(s, e).ledger.accounts[a].total == Final(s.ledger.accounts[a].total, Moment(a, s, e))
  {
    if e.Run? && e.thread < |s.threads| {
      assert Kind(s.threads[e.thread]);
      var m := Moment(a, s, e);
      if m != [] {
        assert m[1..] == [];
      }
    }
  }

  /** An event adds to every thread's outcome exactly what it adds to the log. */
  lemma MomentIsOutcome(a: string, s: State, e: Event, t: nat)
    requires a in s.ledger.accounts && Kinds(s.threads)
    ensures Outcome(a, Step(s, e), t) == Outcome(a, s, t) + TakesOf(Moment(a, s, e), t)
  {
    var m := Moment(a, s, e);
    if m != [] {
      assert m[1..] == [];
    }
    if e.Run? && e.thread < |s.threads| {
      assert Kind(s.threads[e.thread]);
    }
  }

  lemma {:induction false} OneByOneConcat(balance: nat, log: seq<Entry>, more: seq<Entry>)
    requires OneByOne(balance, log) && OneByOne(Final(balance, log), more)
    ensures OneByOne(balance, log + more)
    ensures Final(balance, log + more) == Final(Final(balance, log), more)
    decreases |log|
  {
    if log == [] {
      assert log + more == more;
    } else {
      assert (log + more)[1..] == log[1..] + more;
      OneByOneConcat(After(balance, log[0]), log[1..], more);
    }
  }

  /** Linearizability of Reserve, for any mix of requests by any number of threads under any schedule: the
      moments of truth, taken one by one, give every reservation its actual grant and code and end in
      the actual balance; and each thread's own moments are exactly the answer it holds. */
  lemma {:induction false} ReserveIsLinearizable(a: string, s: State, es: seq<Event>)
    requires a in s.ledger.accounts && Kinds(s.threads)
    ensures
      var end := Exec(s, es);
      var log := Log(a, s, es);
      && a in end.ledger.accounts && Kinds(end.threads)
      && OneByOne(s.ledger.accounts[a].total, log)
      && end.ledger.accounts[a].total == Final(s.ledger.accounts[a].total, log)
      && (forall t: nat :: Outcome(a, end, t) == Outcome(a, s, t) + TakesOf(log, t))
    decreases |es|
  {
    if es != [] {
      var next := Step(s, es[0]);
      var m := Moment(a, s, es[0]);
      var rest := Log(a, next, es[1..]);
      MomentIsSequential(a, s, es[0]);
      StepKeepsKinds(s, es[0]);
      ReserveIsLinearizable(a, next, es[1..]);
      OneByOneConcat(s.ledger.accounts[a].total, m, rest);
      forall t: nat
        ensures Outcome(a, Exec(s, es), t) == Outcome(a, s, t) + TakesOf(m + rest, t)
      {
        MomentIsOutcome(a, s, es[0], t);
        TakesOfConcat(m, rest, t);
      }
    }
  }

  /** The order respects real time: once a reservation has been answered, every reservation called later
      comes after it in the log, and no later event touches the answered one. */
  lemma AnsweredBeforeCalledLater(a: string, ledger: Ledger, es: seq<Event>, fs: seq<Event>, t: nat, u: nat)
    requires a in ledger.accounts
    requires
      var mid := Exec(State(ledger, []), es);
      && t < |mid.threads| <= u
      && mid.threads[t].request.subscriber == a && !mid.threads[t].request.Terminate?
      && mid.threads[t].at.Finished?
    ensures
      var s0 := State(ledger, []);
      var log := Log(a, s0, es);
      var more := Log(a, Exec(s0, es), fs);
      && Log(a, s0, es + fs) == log + more
      && |TakesOf(log, t)| == 1 && TakesOf(more, t) == []
      && TakesOf(log, u) == []
  {
    var s0 := State(ledger, []);
    var mid := Exec(s0, es);
    LogConcat(a, s0, es, fs);
    ReserveIsLinearizable(a, s0, es);
    ReserveIsLinearizable(a, mid, fs);
    assert Outcome(a, s0, t) == [] && Outcome(a, s0, u) == [];
    assert Outcome(a, mid, t) == TakesOf(Log(a, s0, es), t);
    assert Outcome(a, mid, u) == [];
    FinishedStays(mid, fs, t);
  }

  lemma {:induction false} LogConcat(a: string, s: State, es: seq<Event>, fs: seq<Event>)
    ensures Log(a, s, es + fs) == Log(a, s, es) + Log(a, Exec(s, es), fs)
    decreases |es|
  {
    if es == [] {
      assert es + fs == fs;
    } else {
      assert (es + fs)[1..] == es[1..] + fs;
      LogConcat(a, Step(s, es[0]), es[1..], fs);
    }
  }

  lemma {:induction false} FinishedStays(s: State, es: seq<Event>, t: nat)
    requires t < |s.threads| && s.threads[t].at.Finished?
    ensures t < |Exec(s, es).threads| && Exec(s, es).threads[t] == s.threads[t]
    decreases |es|
  {
    if es != [] {
      FinishedStays(Step(s, es[0]), es[1..], t);
    }
  }
}
