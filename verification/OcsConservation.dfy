/** No byte is lost or made, over every interleaving. All statements are about one subscriber `a`,
    whatever the other subscribers do. */
module OcsConservation {
  import opened Numbers
  import opened Ocs
  import opened OcsMachine
  import opened Sums

  /** Bytes granted to a thread of `a` so far. */
  ghost function Granted(a: string): Thread -> int {
    (th: Thread) =>
      if th.request.subscriber != a then 0
      else match th.at
        case AddReserved(granted) => granted
        case StoreSession(granted) => granted
        case Finished(reply) => reply.granted
        case _ => 0
  }

  /** Bytes taken from the balance and not yet added to the reserve. */
  ghost function InFlight(a: string): Thread -> int {
    (th: Thread) => if th.request.subscriber == a && th.at.AddReserved? then th.at.granted else 0
  }

  /** Bytes a TERMINATE has already paid back while its reservation is still to be cleared. */
  ghost function Refunding(a: string): Thread -> int {
    (th: Thread) => if Clearing(a, th) then Refund(th.at.quota, Used(th.request)) else 0
  }

  /** Reserved bytes that belong to a thread and to no stored session. */
  ghost function Held(a: string): Thread -> int {
    (th: Thread) =>
      if Clearing(a, th) then th.at.quota
      else if th.request.subscriber == a && th.at.StoreSession? then th.at.granted
      else 0
  }

  ghost function Pending(a: string): Thread -> int {
    (th: Thread) => if Clearing(a, th) then 1 else 0
  }

  ghost predicate Clearing(a: string, th: Thread) {
    th.request.subscriber == a && (th.at.ReadDebit? || th.at.SwapDebit?)
  }

  /** The bytes one event finally charges to `a`. */
  ghost function Charge(a: string, s: State, e: Event): nat {
    if e.Run? && e.thread < |s.threads| && s.threads[e.thread].request.subscriber == a && a in s.ledger.accounts then
      var th := s.threads[e.thread];
      var reserved := s.ledger.accounts[a].reserved;
      match th.at
      case SwapReserved(seen) => if reserved == seen then Min(Used(th.request), seen) else 0
      case SwapDebit(quota, seen) => if reserved == seen then quota - Refund(quota, Used(th.request)) else 0
      case _ => 0
    else 0
  }

  ghost function Spent(a: string, s: State, es: seq<Event>): nat
    decreases |es|
  {
    if es == [] then 0 else Charge(a, s, es[0]) + Spent(a, Step(s, es[0]), es[1..])
  }

  // ----- Conservation without refunds: no condition on the clients but that no TERMINATE finds its session

  /** The event is not a TERMINATE of `a` finding its session. */
  ghost predicate Misses(a: string, s: State, e: Event) {
    e.Run? && e.thread < |s.threads| && s.threads[e.thread].request.subscriber == a
    && s.threads[e.thread].at.FindSession? ==>
      s.threads[e.thread].request.session !in s.ledger.sessions
  }

  ghost predicate NoRefunds(a: string, s: State, es: seq<Event>)
    decreases |es|
  {
    es == [] || (Misses(a, s, es[0]) && NoRefunds(a, Step(s, es[0]), es[1..]))
  }

  ghost predicate Climbing(a: string, th: Thread) {
    th.request.subscriber == a ==> !Clearing(a, th) && !th.at.AddRefund? && !th.at.DropSession?
  }

  ghost predicate Balanced(a: string, start: Account, s: State, spent: nat) {
    && a in s.ledger.accounts
    && (forall i :: 0 <= i < |s.threads| ==> Climbing(a, s.threads[i]))
    && s.ledger.accounts[a].total + Sum(s.threads, Granted(a)) == start.total
    && s.ledger.accounts[a].reserved + spent + Sum(s.threads, InFlight(a))
       == start.reserved + Sum(s.threads, Granted(a))
  }

  lemma SumsAfterRun(a: string, s: State, t: nat)
    requires t < |s.threads|
    ensures
      var before := s.threads[t];
      var after := before.(at := Advance(s.ledger, before).1);
      var threads := Step(s, Run(t)).threads;
      && threads == s.threads[t := after]
      && Sum(threads, Granted(a)) == Sum(s.threads, Granted(a)) - Granted(a)(before) + Granted(a)(after)
      && Sum(threads, InFlight(a)) == Sum(s.threads, InFlight(a)) - InFlight(a)(before) + InFlight(a)(after)
      && Sum(threads, Refunding(a)) == Sum(s.threads, Refunding(a)) - Refunding(a)(before) + Refunding(a)(after)
      && Sum(threads, Held(a)) == Sum(s.threads, Held(a)) - Held(a)(before) + Held(a)(after)
      && Sum(threads, Pending(a)) == Sum(s.threads, Pending(a)) - Pending(a)(before) + Pending(a)(after)
  {
    var after := s.threads[t].(at := Advance(s.ledger, s.threads[t]).1);
    SumUpdate(s.threads, t, after, Granted(a));
    SumUpdate(s.threads, t, after, InFlight(a));
    SumUpdate(s.threads, t, after, Refunding(a));
    SumUpdate(s.threads, t, after, Held(a));
    SumUpdate(s.threads, t, after, Pending(a));
  }

  lemma SumsAfterCall(a: string, s: State, request: Request)
    ensures
      var threads := Step(s, Call(request)).threads;
      && Sum(threads, Granted(a)) == Sum(s.threads, Granted(a))
      && Sum(threads, InFlight(a)) == Sum(s.threads, InFlight(a))
      && Sum(threads, Refunding(a)) == Sum(s.threads, Refunding(a))
      && Sum(threads, Held(a)) == Sum(s.threads, Held(a))
      && Sum(threads, Pending(a)) == Sum(s.threads, Pending(a))
  {
    var th := Thread(request, Start);
    SumAppend(s.threads, th, Granted(a));
    SumAppend(s.threads, th, InFlight(a));
    SumAppend(s.threads, th, Refunding(a));
    SumAppend(s.threads, th, Held(a));
    SumAppend(s.threads, th, Pending(a));
  }

  /** What one action moves between the two words, the thread's hands and the charge. */
  lemma ActionBalances(a: string, s: State, t: nat)
    requires a in s.ledger.accounts && t < |s.threads| && Climbing(a, s.threads[t]) && Misses(a, s, Run(t))
    requires s.ledger.accounts[a].reserved + InFlight(a)(s.threads[t]) < TWO_64
    ensures
      var (ledger, place) := Advance(s.ledger, s.threads[t]);
      var before, after := s.threads[t], s.threads[t].(at := place);
      && a in ledger.accounts && Climbing(a, after)
      && var was, now := s.ledger.accounts[a], ledger.accounts[a];
      && now.total + Granted(a)(after) == was.total + Granted(a)(before)
      && now.reserved + Charge(a, s, Run(t)) + InFlight(a)(after) - Granted(a)(after)
         == was.reserved + InFlight(a)(before) - Granted(a)(before)
  {
  }

  lemma BalancedRun(a: string, start: Account, s: State, spent: nat, t: nat)
    requires Balanced(a, start, s, spent) && t < |s.threads| && Misses(a, s, Run(t))
    requires start.total + start.reserved < TWO_64
    ensures Balanced(a, start, Step(s, Run(t)), spent + Charge(a, s, Run(t)))
  {
    SumsAfterRun(a, s, t);
    assert s.ledger.accounts[a].reserved + InFlight(a)(s.threads[t]) < TWO_64 by {
      SumCovers(s.threads, t, InFlight(a));
      SumNonNegative(s.threads, Granted(a));
    }
    ActionBalances(a, s, t);
    hide Advance, Charge, Climbing, Granted, InFlight;
  }

  lemma {:induction false} BalancedExec(a: string, start: Account, s: State, spent: nat, es: seq<Event>)
    requires Balanced(a, start, s, spent)
    requires start.total + start.reserved < TWO_64
    requires NoRefunds(a, s, es)
    ensures Balanced(a, start, Exec(s, es), spent + Spent(a, s, es))
    decreases |es|
  {
    if es != [] {
      match es[0]
      case Call(request) =>
        SumsAfterCall(a, s, request);
        BalancedExec(a, start, Step(s, es[0]), spent, es[1..]);
      case Run(t) =>
        if t < |s.threads| {
          BalancedRun(a, start, s, spent, t);
        }
        BalancedExec(a, start, Step(s, es[0]), spent + Charge(a, s, es[0]), es[1..]);
    }
  }

  /** Any number of threads, any interleaving, any used and requested values, and any TERMINATEs that find no
      session: every granted byte left the
      balance once, and every one of them is in flight, reserved or spent. The sums are over unbounded
      integers, so neither 64-bit word ever wraps, and the grants never exceed the opening balance. */
  lemma ConservationWithoutRefunds(a: string, ledger: Ledger, es: seq<Event>)
    requires a in ledger.accounts
    requires ledger.accounts[a].total + ledger.accounts[a].reserved < TWO_64
    requires NoRefunds(a, State(ledger, []), es)
    ensures
      var start := ledger.accounts[a];
      var s0 := State(ledger, []);
      var s := Exec(s0, es);
      && a in s.ledger.accounts
      && var now := s.ledger.accounts[a];
      && now.total + Sum(s.threads, Granted(a)) == start.total
      && now.total + now.reserved + Sum(s.threads, InFlight(a)) + Spent(a, s0, es) == start.total + start.reserved
      && 0 <= Sum(s.threads, Granted(a)) <= start.total
  {
    var s0 := State(ledger, []);
    BalancedExec(a, ledger.accounts[a], s0, 0, es);
    hide Exec, Spent, NoRefunds, Climbing;
    SumNonNegative(Exec(s0, es).threads, Granted(a));
  }

  /** TERMINATEs of `a` name only ids in `barred`, under which nobody opens a session. */
  ghost predicate Apart(a: string, barred: string -> bool, request: Request) {
    if request.Terminate? then request.subscriber == a ==> barred(request.session) else !barred(request.session)
  }

  ghost predicate AllApart(a: string, barred: string -> bool, s: State) {
    && Kinds(s.threads)
    && (forall i :: 0 <= i < |s.threads| ==> Apart(a, barred, s.threads[i].request))
    && (forall k :: k in s.ledger.sessions ==> !barred(k))
  }

  lemma StepStaysApart(a: string, barred: string -> bool, s: State, e: Event)
    requires AllApart(a, barred, s) && (e.Call? ==> Apart(a, barred, e.request))
    ensures AllApart(a, barred, Step(s, e)) && Misses(a, s, e)
  {
    StepKeepsKinds(s, e);
    if e.Run? && e.thread < |s.threads| {
      assert Kind(s.threads[e.thread]) && Apart(a, barred, s.threads[e.thread].request);
    }
  }

  /** If the session ids of TERMINATEs are kept apart from those of INITIALs and UPDATEs, no schedule lets a
      TERMINATE find a session. */
  lemma {:induction false} ApartIdsNeverRefund(a: string, barred: string -> bool, s: State, es: seq<Event>)
    requires AllApart(a, barred, s)
    requires forall e :: e in es && e.Call? ==> Apart(a, barred, e.request)
    ensures NoRefunds(a, s, es)
    decreases |es|
  {
    if es != [] {
      assert es[0] in es;
      StepStaysApart(a, barred, s, es[0]);
      ApartIdsNeverRefund(a, barred, Step(s, es[0]), es[1..]);
    }
  }

  // ----- Conservation with refunds

  /** The auditor's books on subscriber `a`; no step reads them. `escrow` is what each session of `a`
      still holds of the reserve, `stranded` what no session can ever give back. */
  datatype Books = Books(spent: nat, stranded: nat, escrow: map<string, nat>)

  ghost function Lowered(escrow: map<string, nat>, session: string, amount: nat): map<string, nat> {
    escrow[session := if Get(escrow, session) < amount then 0 else Get(escrow, session) - amount]
  }

  ghost function Record(a: string, s: State, b: Books, e: Event): Books {
    if e.Run? && e.thread < |s.threads| && s.threads[e.thread].request.subscriber in s.ledger.accounts then
      var th := s.threads[e.thread];
      var session := th.request.session;
      var mine := th.request.subscriber == a;
      var charged := b.(spent := b.spent + Charge(a, s, e));
      match th.at
      case SwapReserved(_) =>
        charged.(escrow := if mine then Lowered(b.escrow, session, Charge(a, s, e)) else b.escrow)
      case StoreSession(granted) =>
        charged.(stranded := b.stranded + Get(b.escrow, session),
                 escrow := if mine then b.escrow[session := granted] else b.escrow - {session})
      case AddRefund(quota) =>
        charged.(escrow := if mine then Lowered(b.escrow, session, quota) else b.escrow)
      case DropSession =>
        charged.(stranded := b.stranded + Get(b.escrow, session), escrow := b.escrow - {session})
      case _ => charged
    else b
  }

  ghost function Recorded(a: string, s: State, b: Books, es: seq<Event>): Books
    decreases |es|
  {
    if es == [] then b else Recorded(a, Step(s, es[0]), Record(a, s, b, es[0]), es[1..])
  }

  /** What the clients observe: one request at a time per session; an UPDATE of `a` reports no more than
      its session still holds; a TERMINATE of `a` comes while its session still holds its whole quota
      (never after an UPDATE that was charged and answered 4012). At most `limit` releases of `a` are
      between their refund and their debit. */
  ghost predicate Polite(a: string, s: State, b: Books, limit: nat, e: Event) {
    match e
    case Call(request) =>
      && (forall i :: 0 <= i < |s.threads| && !s.threads[i].at.Finished? ==>
            s.threads[i].request.session != request.session)
      && (request.subscriber == a && request.Update? ==> request.used <= Get(b.escrow, request.session))
      && (request.subscriber == a && request.Terminate? && request.session in s.ledger.sessions ==>
            s.ledger.sessions[request.session].quota <= Get(b.escrow, request.session))
    case Run(t) =>
      t < |s.threads| && s.threads[t].request.subscriber == a && s.threads[t].at.AddRefund? ==>
        Sum(s.threads, Pending(a)) < limit
  }

  ghost predicate PoliteRun(a: string, s: State, b: Books, limit: nat, es: seq<Event>)
    decreases |es|
  {
    es == [] || (Polite(a, s, b, limit, es[0])
                 && PoliteRun(a, Step(s, es[0]), Record(a, s, b, es[0]), limit, es[1..]))
  }

  /** What the auditor knows about one running request of `a`. */
  ghost predicate Funded(a: string, most: nat, l: Ledger, b: Books, th: Thread) {
    var held := Get(b.escrow, th.request.session);
    th.request.subscriber == a ==>
      match th.at
      case Start =>
        && (th.request.Update? ==> th.request.used <= held)
        && (th.request.Terminate? ==> SessionFunded(l, b, th.request.session))
      case ReadReserved => Used(th.request) <= held
      case SwapReserved(_) => Used(th.request) <= held
      case FindSession => SessionFunded(l, b, th.request.session)
      case AddRefund(quota) => quota <= held
      case AddReserved(granted) => granted <= most
      case StoreSession(granted) => granted <= most
      case ReadDebit(quota) => quota <= most
      case SwapDebit(quota, _) => quota <= most
      case _ => true
  }

  ghost predicate SessionFunded(l: Ledger, b: Books, session: string) {
    session in l.sessions ==> l.sessions[session].quota <= Get(b.escrow, session)
  }

  ghost predicate Exclusive(threads: seq<Thread>) {
    forall i, j :: 0 <= i < j < |threads| && !threads[i].at.Finished? && !threads[j].at.Finished? ==>
      threads[i].request.session != threads[j].request.session
  }

  ghost predicate AllFunded(a: string, most: nat, s: State, b: Books) {
    && (forall i :: 0 <= i < |s.threads| ==> Funded(a, most, s.ledger, b, s.threads[i]))
    && (forall k :: k in b.escrow ==> b.escrow[k] <= most)
  }

  ghost predicate Equations(a: string, most: nat, limit: nat, s: State, b: Books) {
    && a in s.ledger.accounts
    && var now := s.ledger.accounts[a];
    && now.total + now.reserved + Sum(s.threads, InFlight(a)) + b.spent == most + Sum(s.threads, Refunding(a))
    && now.reserved == Total(b.escrow) + Sum(s.threads, Held(a)) + b.stranded
    && Sum(s.threads, Pending(a)) <= limit
  }

  ghost predicate Audited(a: string, most: nat, limit: nat, s: State, b: Books) {
    Equations(a, most, limit, s, b) && Exclusive(s.threads) && AllFunded(a, most, s, b)
  }

  /** No pending refund exceeds its reservation, nor `most`. */
  lemma RefundsAreHeld(a: string, most: nat, s: State, b: Books)
    requires AllFunded(a, most, s, b)
    ensures 0 <= Sum(s.threads, Refunding(a)) <= Sum(s.threads, Held(a))
    ensures Sum(s.threads, Refunding(a)) <= most * Sum(s.threads, Pending(a))
  {
    forall i | 0 <= i < |s.threads|
      ensures 0 <= Refunding(a)(s.threads[i]) <= Held(a)(s.threads[i])
      ensures Refunding(a)(s.threads[i]) <= most * Pending(a)(s.threads[i])
    {
      assert Funded(a, most, s.ledger, b, s.threads[i]);
    }
    SumNonNegative(s.threads, Refunding(a));
    SumMonotone(s.threads, Refunding(a), Held(a));
    SumScaled(s.threads, Refunding(a), Pending(a), most);
  }

  /** The sizes the equations allow. */
  ghost predicate InRange(a: string, most: nat, s: State, b: Books)
    requires a in s.ledger.accounts
  {
    && 0 <= Sum(s.threads, Refunding(a)) <= Sum(s.threads, Held(a))
    && s.ledger.accounts[a].total + Total(b.escrow) + b.stranded <= most < TWO_64
    && s.ledger.accounts[a].reserved + Sum(s.threads, InFlight(a)) < TWO_64
  }

  lemma AuditedBounds(a: string, most: nat, limit: nat, s: State, b: Books)
    requires Audited(a, most, limit, s, b)
    requires most * limit + most < TWO_64
    ensures InRange(a, most, s, b)
  {
    RefundsAreHeld(a, most, s, b);
    SumNonNegative(s.threads, InFlight(a));
    Scale(most, Sum(s.threads, Pending(a)), limit);
  }

  lemma Scale(most: nat, pending: int, limit: nat)
    requires pending <= limit
    ensures most * pending <= most * limit
  {
  }

  lemma EscrowCovers(escrow: map<string, nat>, session: string)
    ensures Get(escrow, session) <= Total(escrow)
  {
    TotalRemove(escrow, session);
  }

  /** The equations survive one action of one thread of `a`: no clamp fires and no addition wraps. */
  lemma EquationsAfterRun(a: string, most: nat, limit: nat, s: State, b: Books, t: nat)
    requires Equations(a, most, limit, s, b) && InRange(a, most, s, b)
    requires t < |s.threads| && s.threads[t].request.subscriber == a
    requires Funded(a, most, s.ledger, b, s.threads[t])
    requires Polite(a, s, b, limit, Run(t))
    ensures Equations(a, most, limit, Step(s, Run(t)), Record(a, s, b, Run(t)))
  {
    match s.threads[t].at
    case SwapReserved(_) => EquationsAfterCommit(a, most, limit, s, b, t);
    case SwapDebit(_, _) => EquationsAfterDebit(a, most, limit, s, b, t);
    case AddRefund(_) => EquationsAfterRefund(a, most, limit, s, b, t);
    case AddReserved(_) => EquationsAfterReserve(a, most, limit, s, b, t);
    case StoreSession(_) => EquationsAfterStore(a, most, limit, s, b, t);
    case DropSession => EquationsAfterDrop(a, most, limit, s, b, t);
    case _ => EquationsAfterRead(a, most, limit, s, b, t);
  }

  /** Lookups and loads leave both words and all the sums alone. */
  lemma EquationsAfterRead(a: string, most: nat, limit: nat, s: State, b: Books, t: nat)
    requires Equations(a, most, limit, s, b)
    requires t < |s.threads| && s.threads[t].request.subscriber == a
    requires var p := s.threads[t].at;
      !p.SwapReserved? && !p.SwapDebit? && !p.AddRefund? && !p.AddReserved? && !p.StoreSession? && !p.DropSession?
    ensures Equations(a, most, limit, Step(s, Run(t)), Record(a, s, b, Run(t)))
  {
    SumsAfterRun(a, s, t);
  }

  lemma EquationsAfterStore(a: string, most: nat, limit: nat, s: State, b: Books, t: nat)
    requires Equations(a, most, limit, s, b)
    requires t < |s.threads| && s.threads[t].request.subscriber == a
    requires s.threads[t].at.StoreSession?
    ensures Equations(a, most, limit, Step(s, Run(t)), Record(a, s, b, Run(t)))
  {
    SumsAfterRun(a, s, t);
    TotalPut(b.escrow, s.threads[t].request.session, s.threads[t].at.granted);
  }

  lemma EquationsAfterDrop(a: string, most: nat, limit: nat, s: State, b: Books, t: nat)
    requires Equations(a, most, limit, s, b)
    requires t < |s.threads| && s.threads[t].request.subscriber == a
    requires s.threads[t].at.DropSession?
    ensures Equations(a, most, limit, Step(s, Run(t)), Record(a, s, b, Run(t)))
  {
    SumsAfterRun(a, s, t);
    TotalRemove(b.escrow, s.threads[t].request.session);
  }

  lemma EquationsAfterCommit(a: string, most: nat, limit: nat, s: State, b: Books, t: nat)
    requires Equations(a, most, limit, s, b) && InRange(a, most, s, b)
    requires t < |s.threads| && s.threads[t].request.subscriber == a
    requires Funded(a, most, s.ledger, b, s.threads[t])
    requires s.threads[t].at.SwapReserved?
    ensures Equations(a, most, limit, Step(s, Run(t)), Record(a, s, b, Run(t)))
  {
    var session := s.threads[t].request.session;
    SumsAfterRun(a, s, t);
    EscrowCovers(b.escrow, session);
    TotalPut(b.escrow, session, Lowered(b.escrow, session, Charge(a, s, Run(t)))[session]);
  }

  lemma EquationsAfterDebit(a: string, most: nat, limit: nat, s: State, b: Books, t: nat)
    requires Equations(a, most, limit, s, b) && InRange(a, most, s, b)
    requires t < |s.threads| && s.threads[t].request.subscriber == a
    requires Funded(a, most, s.ledger, b, s.threads[t])
    requires s.threads[t].at.SwapDebit?
    ensures Equations(a, most, limit, Step(s, Run(t)), Record(a, s, b, Run(t)))
  {
    SumsAfterRun(a, s, t);
    SumCovers(s.threads, t, Held(a));
  }

  lemma EquationsAfterRefund(a: string, most: nat, limit: nat, s: State, b: Books, t: nat)
    requires Equations(a, most, limit, s, b) && InRange(a, most, s, b)
    requires t < |s.threads| && s.threads[t].request.subscriber == a
    requires Funded(a, most, s.ledger, b, s.threads[t])
    requires s.threads[t].at.AddRefund? && Sum(s.threads, Pending(a)) < limit
    ensures Equations(a, most, limit, Step(s, Run(t)), Record(a, s, b, Run(t)))
  {
    var session := s.threads[t].request.session;
    SumsAfterRun(a, s, t);
    EscrowCovers(b.escrow, session);
    TotalPut(b.escrow, session, Lowered(b.escrow, session, s.threads[t].at.quota)[session]);
  }

  lemma EquationsAfterReserve(a: string, most: nat, limit: nat, s: State, b: Books, t: nat)
    requires Equations(a, most, limit, s, b) && InRange(a, most, s, b)
    requires t < |s.threads| && s.threads[t].request.subscriber == a
    requires Funded(a, most, s.ledger, b, s.threads[t])
    requires s.threads[t].at.AddReserved?
    ensures Equations(a, most, limit, Step(s, Run(t)), Record(a, s, b, Run(t)))
  {
    SumsAfterRun(a, s, t);
    SumCovers(s.threads, t, InFlight(a));
  }

  /** Another subscriber's action leaves the account of `a` alone, and moves what it takes out of the books. */
  lemma ForeignAction(a: string, s: State, b: Books, t: nat)
    requires a in s.ledger.accounts && t < |s.threads| && s.threads[t].request.subscriber != a
    ensures
      var s', b' := Step(s, Run(t)), Record(a, s, b, Run(t));
      && a in s'.ledger.accounts && s'.ledger.accounts[a] == s.ledger.accounts[a]
      && b'.spent == b.spent && Total(b'.escrow) + b'.stranded == Total(b.escrow) + b.stranded
  {
    TotalRemove(b.escrow, s.threads[t].request.session);
  }

  lemma ForeignEquations(a: string, most: nat, limit: nat, s: State, b: Books, t: nat)
    requires Equations(a, most, limit, s, b)
    requires t < |s.threads| && s.threads[t].request.subscriber != a
    ensures Equations(a, most, limit, Step(s, Run(t)), Record(a, s, b, Run(t)))
  {
    ForeignAction(a, s, b, t);
    SumsAfterRun(a, s, t);
    hide Advance, Record;
  }

  /** A thread's action touches the funding of its own session only. */
  lemma FundingAfterRun(a: string, most: nat, limit: nat, s: State, b: Books, t: nat)
    requires Audited(a, most, limit, s, b) && InRange(a, most, s, b) && t < |s.threads|
    ensures
      var s' := Step(s, Run(t));
      Exclusive(s'.threads) && AllFunded(a, most, s', Record(a, s, b, Run(t)))
  {
    var s' := Step(s, Run(t));
    var b' := Record(a, s, b, Run(t));
    assert Funded(a, most, s.ledger, b, s.threads[t]);
    OwnFunding(a, most, s, b, t);
    EscrowBounded(a, most, s, b, t);
    forall i | 0 <= i < |s'.threads|
      ensures Funded(a, most, s'.ledger, b', s'.threads[i])
    {
      if i != t {
        assert Funded(a, most, s.ledger, b, s.threads[i]);
        OtherFunding(a, most, s, b, t, s.threads[i]);
      }
    }
  }

  lemma OwnFunding(a: string, most: nat, s: State, b: Books, t: nat)
    requires a in s.ledger.accounts && InRange(a, most, s, b) && t < |s.threads|
    requires Funded(a, most, s.ledger, b, s.threads[t])
    requires forall k :: k in b.escrow ==> b.escrow[k] <= most
    ensures
      var s' := Step(s, Run(t));
      Funded(a, most, s'.ledger, Record(a, s, b, Run(t)), s'.threads[t])
  {
  }

  lemma EscrowBounded(a: string, most: nat, s: State, b: Books, t: nat)
    requires a in s.ledger.accounts && t < |s.threads|
    requires Funded(a, most, s.ledger, b, s.threads[t])
    requires forall k :: k in b.escrow ==> b.escrow[k] <= most
    ensures forall k :: k in Record(a, s, b, Run(t)).escrow ==> Record(a, s, b, Run(t)).escrow[k] <= most
  {
  }

  /** An action changes no session but its thread's own, nor what the books say about any other. */
  lemma OtherSessionsStay(a: string, s: State, b: Books, t: nat, session: string)
    requires t < |s.threads| && session != s.threads[t].request.session
    ensures
      var l := Step(s, Run(t)).ledger;
      && (session in l.sessions <==> session in s.ledger.sessions)
      && (session in l.sessions ==> l.sessions[session] == s.ledger.sessions[session])
      && Get(Record(a, s, b, Run(t)).escrow, session) == Get(b.escrow, session)
  {
  }

  lemma OtherFunding(a: string, most: nat, s: State, b: Books, t: nat, other: Thread)
    requires t < |s.threads|
    requires Funded(a, most, s.ledger, b, other)
    requires s.threads[t].at.Finished? || other.at.Finished?
          || s.threads[t].request.session != other.request.session
    ensures Funded(a, most, Step(s, Run(t)).ledger, Record(a, s, b, Run(t)), other)
  {
    if !s.threads[t].at.Finished? && !other.at.Finished? {
      OtherSessionsStay(a, s, b, t, other.request.session);
    }
  }

  lemma AuditedCall(a: string, most: nat, limit: nat, s: State, b: Books, request: Request)
    requires Audited(a, most, limit, s, b)
    requires Polite(a, s, b, limit, Call(request))
    ensures Audited(a, most, limit, Step(s, Call(request)), b)
  {
    SumsAfterCall(a, s, request);
    var s' := Step(s, Call(request));
    forall i | 0 <= i < |s'.threads|
      ensures Funded(a, most, s'.ledger, b, s'.threads[i])
    {
      if i < |s.threads| {
        assert Funded(a, most, s.ledger, b, s.threads[i]);
      }
    }
  }

  /** One polite event keeps the books right, and they record what it charges. */
  lemma AuditedStep(a: string, most: nat, limit: nat, s: State, b: Books, e: Event)
    requires Audited(a, most, limit, s, b) && Polite(a, s, b, limit, e)
    requires most * limit + most < TWO_64
    ensures Audited(a, most, limit, Step(s, e), Record(a, s, b, e))
    ensures Record(a, s, b, e).spent == b.spent + Charge(a, s, e)
  {
    match e
    case Call(request) =>
      AuditedCall(a, most, limit, s, b, request);
    case Run(t) =>
      if t < |s.threads| {
        AuditedBounds(a, most, limit, s, b);
        FundingAfterRun(a, most, limit, s, b, t);
        if s.threads[t].request.subscriber == a {
          assert Funded(a, most, s.ledger, b, s.threads[t]);
          EquationsAfterRun(a, most, limit, s, b, t);
        } else {
          ForeignEquations(a, most, limit, s, b, t);
        }
      }
  }

  lemma {:induction false} AuditedExec(a: string, most: nat, limit: nat, s: State, b: Books, es: seq<Event>)
    requires Audited(a, most, limit, s, b)
    requires most * limit + most < TWO_64
    requires PoliteRun(a, s, b, limit, es)
    ensures Audited(a, most, limit, Exec(s, es), Recorded(a, s, b, es))
    ensures Recorded(a, s, b, es).spent == b.spent + Spent(a, s, es)
    decreases |es|
  {
    if es != [] {
      AuditedStep(a, most, limit, s, b, es[0]);
      AuditedExec(a, most, limit, Step(s, es[0]), Record(a, s, b, es[0]), es[1..]);
    }
  }

  /** What the books say a session holds is the session's: it is stored for `a` with at least that quota. */
  ghost predicate HeldBySession(a: string, l: Ledger, b: Books, session: string) {
    Get(b.escrow, session) > 0 ==>
      && session in l.sessions && l.sessions[session].subscriber == a
      && Get(b.escrow, session) <= l.sessions[session].quota
  }

  ghost predicate HeldBySessions(a: string, l: Ledger, b: Books) {
    forall k :: HeldBySession(a, l, b, k)
  }

  lemma RunKeepsHolding(a: string, s: State, b: Books, t: nat, session: string)
    requires a in s.ledger.accounts && t < |s.threads| && HeldBySession(a, s.ledger, b, session)
    ensures HeldBySession(a, Step(s, Run(t)).ledger, Record(a, s, b, Run(t)), session)
  {
    if session != s.threads[t].request.session {
      OtherSessionsStay(a, s, b, t, session);
    }
  }

  lemma StepKeepsHoldings(a: string, s: State, b: Books, e: Event)
    requires a in s.ledger.accounts && HeldBySessions(a, s.ledger, b)
    ensures a in Step(s, e).ledger.accounts && HeldBySessions(a, Step(s, e).ledger, Record(a, s, b, e))
  {
    if e.Run? && e.thread < |s.threads| {
      forall k
        ensures HeldBySession(a, Step(s, e).ledger, Record(a, s, b, e), k)
      {
        assert HeldBySession(a, s.ledger, b, k);
        RunKeepsHolding(a, s, b, e.thread, k);
      }
    }
  }

  lemma {:induction false} HoldingsAreSessions(a: string, s: State, b: Books, es: seq<Event>)
    requires a in s.ledger.accounts && HeldBySessions(a, s.ledger, b)
    ensures HeldBySessions(a, Exec(s, es).ledger, Recorded(a, s, b, es))
    decreases |es|
  {
    if es != [] {
      StepKeepsHoldings(a, s, b, es[0]);
      HoldingsAreSessions(a, Step(s, es[0]), Record(a, s, b, es[0]), es[1..]);
    }
  }

  ghost const EMPTY_BOOKS: Books := Books(0, 0, map[])

  /** Byte conservation with refunds, over every interleaving of polite clients: balance, reserve, bytes in
      flight and bytes spent add up to the opening balance plus the refunds whose debit is still to come;
      the reserve is exactly what the stored sessions, the running requests and the stranded remainders hold. */
  lemma ConservationWithRefunds(a: string, ledger: Ledger, limit: nat, es: seq<Event>)
    requires a in ledger.accounts && ledger.accounts[a].reserved == 0 && ledger.sessions == map[]
    requires ledger.accounts[a].total * limit + ledger.accounts[a].total < TWO_64
    requires PoliteRun(a, State(ledger, []), EMPTY_BOOKS, limit, es)
    ensures
      var s := Exec(State(ledger, []), es);
      var b := Recorded(a, State(ledger, []), EMPTY_BOOKS, es);
      && a in s.ledger.accounts
      && var now := s.ledger.accounts[a];
      && now.total + now.reserved + Sum(s.threads, InFlight(a)) + Spent(a, State(ledger, []), es)
         == ledger.accounts[a].total + Sum(s.threads, Refunding(a))
      && now.reserved == Total(b.escrow) + Sum(s.threads, Held(a)) + b.stranded
      && HeldBySessions(a, s.ledger, b)
      && now.total <= ledger.accounts[a].total
  {
    HoldingsAreSessions(a, State(ledger, []), EMPTY_BOOKS, es);
    hide HeldBySessions;
    AuditedExec(a, ledger.accounts[a].total, limit, State(ledger, []), EMPTY_BOOKS, es);
    AuditedBounds(a, ledger.accounts[a].total, limit, Exec(State(ledger, []), es),
                  Recorded(a, State(ledger, []), EMPTY_BOOKS, es));
  }

  /** The action the thread is about to take neither cuts a subtraction short nor drops a carry: a swap that
      is about to succeed finds a reserve that covers the whole amount it takes out. */
  ghost predicate Exact(now: Account, th: Thread) {
    match th.at
    case SwapReserved(seen) => seen == now.reserved ==> Used(th.request) <= seen
    case SwapDebit(quota, seen) => seen == now.reserved ==> quota <= seen
    case AddReserved(granted) => now.reserved + granted < TWO_64
    case AddRefund(quota) => now.total + quota < TWO_64
    case _ => true
  }

  lemma FundedIsExact(a: string, most: nat, limit: nat, s: State, b: Books, t: nat)
    requires Equations(a, most, limit, s, b) && InRange(a, most, s, b) && AllFunded(a, most, s, b)
    requires t < |s.threads| && s.threads[t].request.subscriber == a
    ensures Exact(s.ledger.accounts[a], s.threads[t])
  {
    var th := s.threads[t];
    assert Funded(a, most, s.ledger, b, th);
    EscrowCovers(b.escrow, th.request.session);
    SumCovers(s.threads, t, Held(a));
    SumCovers(s.threads, t, InFlight(a));
  }

  /** At every point of such a run every action about to be taken is exact: the clamps never fire. */
  lemma ClampsNeverFire(a: string, ledger: Ledger, limit: nat, es: seq<Event>, t: nat)
    requires a in ledger.accounts && ledger.accounts[a].reserved == 0 && ledger.sessions == map[]
    requires ledger.accounts[a].total * limit + ledger.accounts[a].total < TWO_64
    requires PoliteRun(a, State(ledger, []), EMPTY_BOOKS, limit, es)
    requires
      var s := Exec(State(ledger, []), es);
      t < |s.threads| && s.threads[t].request.subscriber == a
    ensures
      var s := Exec(State(ledger, []), es);
      a in s.ledger.accounts && Exact(s.ledger.accounts[a], s.threads[t])
  {
    var most, start := ledger.accounts[a].total, State(ledger, []);
    var s, b := Exec(start, es), Recorded(a, start, EMPTY_BOOKS, es);
    AuditedExec(a, most, limit, start, EMPTY_BOOKS, es);
    AuditedBounds(a, most, limit, s, b);
    FundedIsExact(a, most, limit, s, b, t);
  }

  /** When every request has been answered the books close: balance, reserve and bytes spent are the opening
      balance, and the reserve is what open sessions hold and closed ones left behind. */
  lemma QuietBooksClose(a: string, ledger: Ledger, limit: nat, es: seq<Event>)
    requires a in ledger.accounts && ledger.accounts[a].reserved == 0 && ledger.sessions == map[]
    requires ledger.accounts[a].total * limit + ledger.accounts[a].total < TWO_64
    requires PoliteRun(a, State(ledger, []), EMPTY_BOOKS, limit, es)
    requires forall th :: th in Exec(State(ledger, []), es).threads ==> th.at.Finished?
    ensures
      var s := Exec(State(ledger, []), es);
      var b := Recorded(a, State(ledger, []), EMPTY_BOOKS, es);
      && a in s.ledger.accounts
      && var now := s.ledger.accounts[a];
      && now.total + now.reserved + Spent(a, State(ledger, []), es) == ledger.accounts[a].total
      && now.reserved == Total(b.escrow) + b.stranded
      && HeldBySessions(a, s.ledger, b)
  {
    ConservationWithRefunds(a, ledger, limit, es);
    var threads := Exec(State(ledger, []), es).threads;
    hide Exec, Recorded, PoliteRun, Spent;
    forall i | 0 <= i < |threads|
      ensures InFlight(a)(threads[i]) == Refunding(a)(threads[i]) == Held(a)(threads[i]) == 0
    {
      assert threads[i] in threads;
    }
    SumOfZeros(threads, InFlight(a));
    SumOfZeros(threads, Refunding(a));
    SumOfZeros(threads, Held(a));
  }
}
