/** Who may be denied, and what the limiter does for a request that runs alone. */
module LimiterDenials {
  import opened TokenBucket
  import opened LimiterMachine
  import opened Sums

  ghost predicate TurnedDown(s: State, t: nat) {
    t < |s.threads| && (s.threads[t].at.CountBlocked? || s.threads[t].at.Denied?)
  }

  /** The event is thread t's reading of the tokens of its bucket, and with the timestamp it read before they are
      worth less than one token now. */
  ghost predicate FindsShort(l: Limits, s: State, t: nat, e: Event) {
    && e == Run(t) && t < |s.threads| && s.threads[t].at.ReadTokens? && s.threads[t].at.bucket < |s.cells|
    && var p := s.threads[t].at;
    Level(l, Bucket(p.stamp, s.cells[p.bucket].bucket.tokens), p.now) < SCALE
  }

  /** Only such a reading turns a request down; it leaves the bucket as it was. */
  lemma TurningDown(l: Limits, s: State, t: nat, e: Event)
    requires !TurnedDown(s, t) && TurnedDown(Step(l, s, e), t)
    ensures FindsShort(l, s, t, e) && Step(l, s, e).cells == s.cells
  {
  }

  /** The thread found less than a token at some point of the run. */
  ghost predicate FoundShort(l: Limits, s: State, t: nat, es: seq<Event>)
    decreases |es|
  {
    es != [] && (FindsShort(l, s, t, es[0]) || FoundShort(l, Step(l, s, es[0]), t, es[1..]))
  }

  /** In every interleaving a request that ends up denied found less than one token when it last read the bucket:
      losing a race to another request is never a reason. */
  lemma {:induction false} DeniedFoundShort(l: Limits, s: State, t: nat, es: seq<Event>)
    requires !TurnedDown(s, t) && TurnedDown(Exec(l, s, es), t)
    ensures FoundShort(l, s, t, es)
    decreases |es|
  {
    if !TurnedDown(Step(l, s, es[0]), t) {
      DeniedFoundShort(l, Step(l, s, es[0]), t, es[1..]);
    } else {
      TurningDown(l, s, t, es[0]);
    }
  }

  /** A lost race sends the request back to read again, with its tokens, timestamp and clock unchanged. */
  lemma LoserReadsAgain(l: Limits, s: State, t: nat)
    requires t < |s.threads| && s.threads[t].at.SwapTokens? && s.threads[t].at.bucket < |s.cells|
    requires s.cells[s.threads[t].at.bucket].bucket.tokens != s.threads[t].at.seen
    ensures
      var p := s.threads[t].at;
      Step(l, s, Run(t)) == s.(threads := s.threads[t := s.threads[t].(at := ReadStamp(p.bucket, p.now))])
  {
  }

  // ----- The counter

  ghost function IsDenied(): Thread -> int {
    (th: Thread) => if th.at.Denied? then 1 else 0
  }

  /** The counter of denials counts exactly the denied requests. */
  lemma {:induction false} BlockedCountsDenials(l: Limits, s: State, es: seq<Event>)
    requires s.blocked == Sum(s.threads, IsDenied())
    ensures Exec(l, s, es).blocked == Sum(Exec(l, s, es).threads, IsDenied())
    decreases |es|
  {
    if es != [] {
      match es[0] {
        case Call(key) => SumAppend(s.threads, Thread(key, Lookup), IsDenied());
        case Tick(_) =>
        case Run(t) =>
          if t < |s.threads| {
            CountStep(l, s, t);
          }
      }
      BlockedCountsDenials(l, Step(l, s, es[0]), es[1..]);
    }
  }

  lemma CountStep(l: Limits, s: State, t: nat)
    requires t < |s.threads| && s.blocked == Sum(s.threads, IsDenied())
    ensures Step(l, s, Run(t)).blocked == Sum(Step(l, s, Run(t)).threads, IsDenied())
  {
    var s' := Step(l, s, Run(t));
    assert s'.threads == s.threads[t := s'.threads[t]];
    SumUpdate(s.threads, t, s'.threads[t], IsDenied());
  }

  // ----- The burst is granted before anybody is denied

  /** The thread was turned down at bucket b. */
  ghost predicate TurnedDownAt(b: nat, th: Thread) {
    (th.at.CountBlocked? || th.at.Denied?) && th.at.bucket == b
  }

  /** Somebody was turned down at bucket b only if it holds less than a token. */
  ghost predicate Exhausted(s: State, b: nat) {
    b < |s.cells| && (exists i :: 0 <= i < |s.threads| && TurnedDownAt(b, s.threads[i])) ==>
      s.cells[b].bucket.tokens < SCALE
  }

  /** With nothing flowing in, the tokens of a bucket never grow, and whoever is turned down found them short. */
  lemma FrozenTokens(l: Limits, s: State, b: nat, t: nat)
    requires Sane(l) && Inv(l, s) && Frozen(l, s, b) && t < |s.threads| && b < |s.cells|
    ensures
      var s' := Step(l, s, Run(t));
      && |s'.threads| == |s.threads| && b < |s'.cells|
      && s'.cells[b].bucket.tokens <= s.cells[b].bucket.tokens
      && (TurnedDownAt(b, s'.threads[t]) && !TurnedDownAt(b, s.threads[t]) ==> s.cells[b].bucket.tokens < SCALE)
  {
    var th := s.threads[t];
    assert ThreadOk(l, s, th) && ReadEarly(s, b, th);
    assert CellOk(l, s, s.cells[b]);
    if th.at.SwapTokens? && th.at.bucket == b {
      StandsStill(l, th.at.stamp, th.at.seen, th.at.now);
    } else if th.at.ReadTokens? && th.at.bucket == b {
      StandsStill(l, th.at.stamp, s.cells[b].bucket.tokens, th.at.now);
    }
  }

  lemma ExhaustedRun(l: Limits, s: State, b: nat, t: nat)
    requires Sane(l) && Inv(l, s) && Frozen(l, s, b) && Exhausted(s, b) && t < |s.threads|
    ensures Exhausted(Step(l, s, Run(t)), b)
  {
    var s' := Step(l, s, Run(t));
    RunOwnThread(l, s, t);
    if b < |s.cells| {
      FrozenTokens(l, s, b, t);
      hide Step, Inv, Frozen;
      if i :| 0 <= i < |s'.threads| && TurnedDownAt(b, s'.threads[i]) && i != t {
        assert TurnedDownAt(b, s.threads[i]);
      }
    } else {
      UnbornAction(l, s, b, t);
      NobodyTurnedDown(l, s, b, t);
    }
  }

  lemma NobodyTurnedDown(l: Limits, s: State, b: nat, t: nat)
    requires Inv(l, s) && t < |s.threads| && b >= |s.cells|
    ensures forall i :: 0 <= i < |Step(l, s, Run(t)).threads| ==> !TurnedDownAt(b, Step(l, s, Run(t)).threads[i])
  {
    var s' := Step(l, s, Run(t));
    RunOwnThread(l, s, t);
    assert ThreadOk(l, s, s.threads[t]);
    forall i | 0 <= i < |s'.threads| && i != t
      ensures !TurnedDownAt(b, s'.threads[i])
    {
      assert ThreadOk(l, s, s.threads[i]);
    }
  }

  lemma ExhaustedStep(l: Limits, s: State, b: nat, e: Event)
    requires Sane(l) && Inv(l, s) && Frozen(l, s, b) && Exhausted(s, b)
    ensures Exhausted(Step(l, s, e), b)
  {
    match e
    case Call(key) =>
      var s' := Step(l, s, e);
      if i :| 0 <= i < |s'.threads| && TurnedDownAt(b, s'.threads[i]) {
        assert s'.threads[i] == s.threads[i];
      }
    case Tick(_) =>
    case Run(t) =>
      if t < |s.threads| {
        ExhaustedRun(l, s, b, t);
      }
  }

  lemma {:induction false} ExhaustedExec(l: Limits, s: State, b: nat, es: seq<Event>)
    requires Sane(l) && Inv(l, s) && Frozen(l, s, b) && Exhausted(s, b) && EarlyRun(l, s, b, es)
    ensures Exhausted(Exec(l, s, es), b)
    decreases |es|
  {
    if es != [] {
      StepInv(l, s, es[0]);
      FrozenStep(l, s, b, es[0]);
      ExhaustedStep(l, s, b, es[0]);
      ExhaustedExec(l, Step(l, s, es[0]), b, es[1..]);
    }
  }

  /** The burst bound is met exactly before anybody is denied: as long as no caller of a bucket has read a time
      later than its creation, a request is turned down only once the whole burst has been admitted. */
  lemma BurstIsGranted(l: Limits, es: seq<Event>, b: nat, t: nat)
    requires Sane(l) && EarlyRun(l, START, b, es)
    requires t < |Exec(l, START, es).threads| && TurnedDownAt(b, Exec(l, START, es).threads[t])
    ensures Sum(Exec(l, START, es).threads, Admitted(b)) == l.capacity / SCALE
  {
    var s := Exec(l, START, es);
    FrozenExec(l, START, b, es);
    ExhaustedExec(l, START, b, es);
    assert ThreadOk(l, s, s.threads[t]);
    assert CellOk(l, s, s.cells[b]);
  }

  // ----- A request alone

  /** n actions of one thread. */
  ghost function Alone(l: Limits, s: State, t: nat, n: nat): State
    decreases n
  {
    if n == 0 then s else Alone(l, Step(l, s, Run(t)), t, n - 1)
  }

  lemma {:induction false} ExecIsAlone(l: Limits, s: State, t: nat, n: nat)
    ensures Exec(l, s, seq(n, _ => Run(t))) == Alone(l, s, t, n)
    decreases n
  {
    if n > 0 {
      assert seq(n, _ => Run(t))[1..] == seq(n - 1, _ => Run(t));
      ExecIsAlone(l, Step(l, s, Run(t)), t, n - 1);
    }
  }

  lemma {:induction false} AloneRests(l: Limits, s: State, t: nat, n: nat)
    requires t < |s.threads| && (s.threads[t].at.Allowed? || s.threads[t].at.Denied?)
    ensures Alone(l, s, t, n) == s
    decreases n
  {
    if n > 0 {
      AloneRests(l, s, t, n - 1);
    }
  }

  /** A request that has read the clock, with nobody else about: what it does to its bucket and the counter. */
  ghost function Decided(l: Limits, s: State, t: nat, b: nat, now: int): State
    requires t < |s.threads| && b < |s.cells|
  {
    var (bucket, allowed) := Allow(l, s.cells[b].bucket, now);
    s.(cells := s.cells[b := s.cells[b].(bucket := bucket)],
       blocked := s.blocked + (if allowed then 0 else 1),
       threads := s.threads[t := s.threads[t].(at := if allowed then Allowed(b) else Denied(b))])
  }

  lemma AloneDecides(l: Limits, s: State, t: nat, b: nat, now: int, n: nat)
    requires t < |s.threads| && b < |s.cells| && s.threads[t].at == ReadStamp(b, now) && n >= 4
    ensures Alone(l, s, t, n) == Decided(l, s, t, b, now)
  {
    hide Level;
    var th, cell := s.threads[t], s.cells[b];
    var s1 := Step(l, s, Run(t));
    assert s1 == s.(threads := s.threads[t := th.(at := ReadTokens(b, now, cell.bucket.refilled))]);
    var s2 := Step(l, s1, Run(t));
    var s3 := Step(l, s2, Run(t));
    assert Alone(l, s, t, n) == Alone(l, s1, t, n - 1) == Alone(l, s2, t, n - 2) == Alone(l, s3, t, n - 3);
    assert cell.bucket == Bucket(cell.bucket.refilled, cell.bucket.tokens);
    if Level(l, cell.bucket, now) < SCALE {
      assert s3.threads == s.threads[t := th.(at := Denied(b))];
      assert s.cells[b := cell.(bucket := cell.bucket)] == s.cells;
      AloneRests(l, s3, t, n - 3);
    } else {
      var s4 := Step(l, s3, Run(t));
      assert s4.threads == s.threads[t := th.(at := Allowed(b))];
      assert s4.cells == s.cells[b := cell.(bucket := Bucket(now, Level(l, cell.bucket, now) - SCALE))];
      AloneRests(l, s4, t, n - 4);
    }
  }

  /** The machine restricted to one request is the limiter at rest: it finds or creates the bucket of the key, and
      decides as the bucket alone does. */
  lemma SoloRunIsAllow(l: Limits, s: State, key: string)
    requires key in s.clients ==> s.clients[key] < |s.cells|
    ensures
      var t := |s.threads|;
      var known := key in s.clients;
      var b := if known then s.clients[key] else |s.cells|;
      var bucket := if known then s.cells[b].bucket else Bucket(s.clock, l.capacity);
      var end := Exec(l, s, [Call(key)] + seq(8, _ => Run(t)));
      var (after, allowed) := Allow(l, bucket, s.clock);
      && end.clients == s.clients[key := b] && end.clock == s.clock
      && end.cells == (if known then s.cells else s.cells + [Cell(bucket, s.clock)])
                      [b := Cell(after, if known then s.cells[b].created else s.clock)]
      && end.blocked == s.blocked + (if allowed then 0 else 1)
      && end.threads == s.threads + [Thread(key, if allowed then Allowed(b) else Denied(b))]
  {
    hide Level;
    var t := |s.threads|;
    var es := [Call(key)] + seq(8, _ => Run(t));
    assert es[1..] == seq(8, _ => Run(t));
    var s0 := Step(l, s, Call(key));
    ExecIsAlone(l, s0, t, 8);
    var s1 := Step(l, s0, Run(t));
    var s2 := Step(l, s1, Run(t));
    if key in s.clients {
      assert s2.threads == s.threads + [Thread(key, ReadStamp(s.clients[key], s.clock))];
      AloneDecides(l, s2, t, s.clients[key], s.clock, 6);
      assert s.clients[key := s.clients[key]] == s.clients;
    } else {
      var s3 := Step(l, s2, Run(t));
      var s4 := Step(l, s3, Run(t));
      assert s4.threads == s.threads + [Thread(key, ReadStamp(|s.cells|, s.clock))];
      AloneDecides(l, s4, t, |s.cells|, s.clock, 4);
    }
  }
}
