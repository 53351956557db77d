/** How large a balance may be: the exact condition under which polite clients conserve bytes. */
module OcsWrap {
  import opened Ocs
  import opened OcsMachine
  import opened OcsConservation
  import opened Sums

  /** A session id no two rounds share. */
  function SessionId(i: nat): (id: string)
    ensures |id| == i
  {
    seq(i, _ => 's')
  }

  /** The conservation equation at the end of a run. */
  ghost predicate Conserved(a: string, most: nat, s: State, es: seq<Event>) {
    var end := Exec(s, es);
    && a in end.ledger.accounts
    && end.ledger.accounts[a].total + end.ledger.accounts[a].reserved + Sum(end.threads, InFlight(a)) + Spent(a, s, es)
       == most + Sum(end.threads, Refunding(a))
  }

  /** A polite run after which bytes are missing. */
  ghost predicate Breaks(a: string, most: nat, limit: nat, s: State, b: Books, es: seq<Event>) {
    PoliteRun(a, s, b, limit, es) && !Conserved(a, most, s, es)
  }

  lemma Prepend(a: string, most: nat, limit: nat, s: State, b: Books, e: Event, es: seq<Event>)
    requires Polite(a, s, b, limit, e) && Charge(a, s, e) == 0
    requires Breaks(a, most, limit, Step(s, e), Record(a, s, b, e), es)
    ensures Breaks(a, most, limit, s, b, [e] + es)
  {
    hide Step, Record, Polite, Charge;
    assert ([e] + es)[1..] == es;
  }

  /** The last thread runs; the others stand where they are. */
  lemma LastSteps(ledger: Ledger, rest: seq<Thread>, th: Thread)
    ensures
      var (after, place) := Advance(ledger, th);
      Step(State(ledger, rest + [th]), Run(|rest|)) == State(after, rest + [th.(at := place)])
  {
    hide Advance;
    var place := Advance(ledger, th).1;
    assert (rest + [th])[|rest| := th.(at := place)] == rest + [th.(at := place)];
  }

  /** An action of the last thread that charges nothing and is no refund can be put before a run. */
  lemma PrependRun(a: string, most: nat, limit: nat, ledger: Ledger, rest: seq<Thread>, th: Thread, b: Books,
                   es: seq<Event>)
    requires !th.at.SwapReserved? && !th.at.SwapDebit? && !th.at.AddRefund?
    requires !th.at.StoreSession? && !th.at.DropSession?
    requires
      var (after, place) := Advance(ledger, th);
      Breaks(a, most, limit, State(after, rest + [th.(at := place)]), b, es)
    ensures Breaks(a, most, limit, State(ledger, rest + [th]), b, [Run(|rest|)] + es)
  {
    hide Breaks, Advance, Step;
    LastSteps(ledger, rest, th);
    assert (rest + [th])[|rest|] == th;
    Prepend(a, most, limit, State(ledger, rest + [th]), b, Run(|rest|), es);
  }

  /** Nobody is active in the session. */
  ghost predicate Unused(rest: seq<Thread>, session: string) {
    forall i :: 0 <= i < |rest| && !rest[i].at.Finished? ==> rest[i].request.session != session
  }

  /** Opening a session for the whole balance, up to the point where its bytes are in the reserve. */
  lemma Opening(a: string, most: uint64, limit: nat, ledger: Ledger, reserved: uint64, rest: seq<Thread>,
                session: string, b: Books, es: seq<Event>) returns (fs: seq<Event>)
    requires a in ledger.accounts && ledger.accounts[a] == Account(most, reserved) && most > 0
    requires Unused(rest, session)
    requires
      var full := ledger.(accounts := ledger.accounts[a := Account(0, Wrap(reserved + most))]);
      Breaks(a, most, limit,
             State(full, rest + [Thread(Initial(a, session, 0, most), StoreSession(most))]), b, es)
    ensures Breaks(a, most, limit, State(ledger, rest), b, fs)
  {
    hide Breaks;
    var th := Thread(Initial(a, session, 0, most), Start);
    var taken := SetTotal(ledger, a, 0);
    var full := ledger.(accounts := ledger.accounts[a := Account(0, Wrap(reserved + most))]);
    assert full.accounts == SetReserved(taken, a, Wrap(reserved + most)).accounts;
    assert Advance(taken, th.(at := AddReserved(most))) == (full, StoreSession(most));
    var r := Run(|rest|);
    PrependRun(a, most, limit, taken, rest, th.(at := AddReserved(most)), b, es);
    PrependRun(a, most, limit, ledger, rest, th.(at := SwapTotal(most)), b, [r] + es);
    PrependRun(a, most, limit, ledger, rest, th.(at := ReadTotal), b, [r] + ([r] + es));
    PrependRun(a, most, limit, ledger, rest, th, b, [r] + ([r] + ([r] + es)));
    Prepend(a, most, limit, State(ledger, rest), b, Call(th.request), [r] + ([r] + ([r] + ([r] + es))));
    fs := [Call(th.request)] + ([r] + ([r] + ([r] + ([r] + es))));
  }

  /** Storing the session just opened. */
  lemma Storing(a: string, most: uint64, limit: nat, ledger: Ledger, rest: seq<Thread>, session: string,
                b: Books, es: seq<Event>)
    requires a in ledger.accounts
    requires
      var th := Thread(Initial(a, session, 0, most), StoreSession(most));
      Breaks(a, most, limit,
             State(ledger.(sessions := ledger.sessions[session := Session(a, 0, most)]),
                   rest + [th.(at := Finished(Reply(most, SUCCESS, false)))]),
             Record(a, State(ledger, rest + [th]), b, Run(|rest|)), es)
    ensures
      var th := Thread(Initial(a, session, 0, most), StoreSession(most));
      Breaks(a, most, limit, State(ledger, rest + [th]), b, [Run(|rest|)] + es)
  {
    hide Breaks, Record;
    var th := Thread(Initial(a, session, 0, most), StoreSession(most));
    LastSteps(ledger, rest, th);
    Prepend(a, most, limit, State(ledger, rest + [th]), b, Run(|rest|), es);
  }

  /** The stored session holds its whole grant. */
  lemma BooksAfterStoring(a: string, ledger: Ledger, rest: seq<Thread>, th: Thread, b: Books) returns (after: Books)
    requires a in ledger.accounts && th.request.subscriber == a && th.at.StoreSession?
    ensures after == Record(a, State(ledger, rest + [th]), b, Run(|rest|))
    ensures Get(after.escrow, th.request.session) == th.at.granted
  {
    assert (rest + [th])[|rest|] == th;
    after := Record(a, State(ledger, rest + [th]), b, Run(|rest|));
  }

  /** Closing a session unused, up to the point where its bytes are back in the balance and still reserved. */
  lemma Closing(a: string, most: uint64, limit: nat, ledger: Ledger, reserved: uint64, rest: seq<Thread>,
                session: string, b: Books, es: seq<Event>) returns (fs: seq<Event>)
    requires a in ledger.accounts && ledger.accounts[a] == Account(0, reserved)
    requires session in ledger.sessions && ledger.sessions[session].quota == most <= Get(b.escrow, session)
    requires Unused(rest, session) && Sum(rest, Pending(a)) < limit
    requires
      var closed := ledger.(accounts := ledger.accounts[a := Account(most, reserved)]);
      Breaks(a, most, limit, State(closed, rest + [Thread(Terminate(a, session, 0, 0), ReadDebit(most))]),
             b.(escrow := Lowered(b.escrow, session, most)), es)
    ensures Breaks(a, most, limit, State(ledger, rest), b, fs)
  {
    hide Breaks;
    var th := Thread(Terminate(a, session, 0, 0), Start);
    var paying := th.(at := AddRefund(most));
    var closed := ledger.(accounts := ledger.accounts[a := Account(most, reserved)]);
    assert Advance(ledger, paying) == (closed, ReadDebit(most));
    var r := Run(|rest|);
    LastSteps(ledger, rest, paying);
    SumAppend(rest, paying, Pending(a));
    Prepend(a, most, limit, State(ledger, rest + [paying]), b, r, es);
    PrependRun(a, most, limit, ledger, rest, th.(at := FindSession), b, [r] + es);
    PrependRun(a, most, limit, ledger, rest, th, b, [r] + ([r] + es));
    Prepend(a, most, limit, State(ledger, rest), b, Call(th.request), [r] + ([r] + ([r] + es)));
    fs := [Call(th.request)] + ([r] + ([r] + ([r] + es)));
  }

  /** i releases of the whole balance hang between their refund and their debit. */
  ghost predicate Hanging(a: string, most: nat, ledger: Ledger, rest: seq<Thread>, i: nat) {
    && a in ledger.accounts && ledger.accounts[a].total == most && ledger.accounts[a].reserved == i * most
    && (forall j :: 0 <= j < |rest| && !rest[j].at.Finished? ==> |rest[j].request.session| < i)
    && Sum(rest, Pending(a)) == i && Sum(rest, Refunding(a)) == i * most && Sum(rest, InFlight(a)) == 0
  }

  /** After the opening that overflows the reserve, bytes are missing. */
  lemma Overflowing(a: string, most: uint64, limit: nat, ledger: Ledger, rest: seq<Thread>, i: nat, th: Thread,
                    b: Books)
    requires Hanging(a, most, ledger, rest, i) && i * most + most >= TWO_64
    requires th == Thread(Initial(a, SessionId(i), 0, most), StoreSession(most))
    ensures
      var full := ledger.(accounts := ledger.accounts[a := Account(0, Wrap(i * most + most))]);
      Breaks(a, most, limit, State(full, rest + [th]), b, [])
  {
    SumAppend(rest, th, InFlight(a));
    SumAppend(rest, th, Refunding(a));
  }

  lemma HangingMore(a: string, most: uint64, ledger: Ledger, rest: seq<Thread>, i: nat, done: Thread, closing: Thread)
    requires Hanging(a, most, ledger, rest, i)
    requires done.at.Finished?
    requires closing == Thread(Terminate(a, SessionId(i), 0, 0), ReadDebit(most))
    requires i * most + most < TWO_64
    ensures
      var sessions := ledger.sessions[SessionId(i) := Session(a, 0, most)];
      Hanging(a, most, Ledger(ledger.accounts[a := Account(most, i * most + most)], sessions),
              rest + [done] + [closing], i + 1)
  {
    var one := rest + [done];
    SumAppend(rest, done, Pending(a));
    SumAppend(rest, done, Refunding(a));
    SumAppend(rest, done, InFlight(a));
    SumAppend(one, closing, Pending(a));
    SumAppend(one, closing, Refunding(a));
    SumAppend(one, closing, InFlight(a));
    assert (i + 1) * most == i * most + most;
  }

  /** Opening and closing without ever clearing piles up reserve until the word overflows. */
  lemma {:induction false} PileUp(a: string, most: uint64, limit: nat, ledger: Ledger, rest: seq<Thread>, i: nat,
                                  b: Books)
    returns (es: seq<Event>)
    requires Hanging(a, most, ledger, rest, i) && most > 0 && i * most < TWO_64
    requires most * limit + most >= TWO_64 && i <= limit
    ensures Breaks(a, most, limit, State(ledger, rest), b, es)
    decreases limit - i, 1
  {
    hide Breaks;
    var session := SessionId(i);
    var th := Thread(Initial(a, session, 0, most), StoreSession(most));
    var full := ledger.(accounts := ledger.accounts[a := Account(0, Wrap(i * most + most))]);
    es := [];
    if i * most + most >= TWO_64 {
      Overflowing(a, most, limit, ledger, rest, i, th, b);
    } else {
      es := Round(a, most, limit, ledger, rest, i, b);
    }
    es := Opening(a, most, limit, ledger, i * most, rest, session, b, es);
  }

  /** One round, and the rest of the pile. */
  lemma {:induction false} Round(a: string, most: uint64, limit: nat, ledger: Ledger, rest: seq<Thread>, i: nat,
                                 b: Books)
    returns (es: seq<Event>)
    requires Hanging(a, most, ledger, rest, i) && most > 0 && i * most + most < TWO_64
    requires most * limit + most >= TWO_64 && i <= limit
    ensures
      var full := ledger.(accounts := ledger.accounts[a := Account(0, i * most + most)]);
      var th := Thread(Initial(a, SessionId(i), 0, most), StoreSession(most));
      Breaks(a, most, limit, State(full, rest + [th]), b, es)
    decreases limit - i, 0
  {
    hide Breaks, Record, Lowered, Sum;
    assert i != limit;
    assert (i + 1) * most == i * most + most;
    var session := SessionId(i);
    var full := ledger.(accounts := ledger.accounts[a := Account(0, i * most + most)]);
    var stored := full.(sessions := full.sessions[session := Session(a, 0, most)]);
    var th := Thread(Initial(a, session, 0, most), StoreSession(most));
    var done := th.(at := Finished(Reply(most, SUCCESS, false)));
    var b1 := BooksAfterStoring(a, full, rest, th, b);
    var closing := Thread(Terminate(a, session, 0, 0), ReadDebit(most));
    var closed := stored.(accounts := stored.accounts[a := Account(most, i * most + most)]);
    HangingMore(a, most, ledger, rest, i, done, closing);
    assert closed.accounts == ledger.accounts[a := Account(most, i * most + most)];
    es := PileUp(a, most, limit, closed, rest + [done] + [closing], i + 1,
                 b1.(escrow := Lowered(b1.escrow, session, most)));
    SumAppend(rest, done, Pending(a));
    es := Closing(a, most, limit, stored, i * most + most, rest + [done], session, b1, es);
    Storing(a, most, limit, full, rest, session, b, es);
    es := [Run(|rest|)] + es;
  }

  /** The exact condition: polite clients with at most `limit` releases between refund and debit conserve the
      bytes of every run if and only if (limit + 1) times the opening balance fits the 64-bit reserve. */
  lemma ConservedIffReserveFits(a: string, ledger: Ledger, limit: nat)
    requires a in ledger.accounts && ledger.accounts[a].reserved == 0 && ledger.sessions == map[]
    ensures
      var most := ledger.accounts[a].total;
      var s := State(ledger, []);
      (forall es :: PoliteRun(a, s, EMPTY_BOOKS, limit, es) ==> Conserved(a, most, s, es))
      <==> most * limit + most < TWO_64
  {
    var most := ledger.accounts[a].total;
    var s := State(ledger, []);
    if most * limit + most < TWO_64 {
      forall es | PoliteRun(a, s, EMPTY_BOOKS, limit, es)
        ensures Conserved(a, most, s, es)
      {
        ConservationWithRefunds(a, ledger, limit, es);
      }
    } else {
      var es := PileUp(a, most, limit, ledger, [], 0, EMPTY_BOOKS);
      assert Breaks(a, most, limit, s, EMPTY_BOOKS, es);
    }
  }
}
