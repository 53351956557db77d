/** The rate bound under interleaving: three things can break it, and nothing else can. */
module LimiterRate {
  import opened TokenBucket
  import opened LimiterMachine
  import opened Sums

  /** What can be wrong at the moment a request takes its token: the timestamp it read is no longer the
      bucket's; its clock reading is behind the timestamp; or somebody who has taken a token has yet to swap
      the timestamp. */
  datatype Cause = StampMoved | ClockBehind | StampPending

  const CAUSES: set<Cause> := {StampMoved, ClockBehind, StampPending}

  /** The event is a successful swap of the tokens of bucket b. */
  ghost predicate Takes(s: State, b: nat, e: Event) {
    && e.Run? && e.thread < |s.threads| && b < |s.cells| && s.threads[e.thread].at.SwapTokens?
    && s.threads[e.thread].at.bucket == b && s.threads[e.thread].at.seen == s.cells[b].bucket.tokens
  }

  ghost predicate PendingAt(b: nat, th: Thread) {
    th.at.SwapStamp? && th.at.bucket == b
  }

  ghost predicate Present(s: State, b: nat, e: Event, cause: Cause)
    requires Takes(s, b, e)
  {
    match cause
    case StampMoved => s.threads[e.thread].at.stamp != s.cells[b].bucket.refilled
    case ClockBehind => s.threads[e.thread].at.now < s.cells[b].bucket.refilled
    case StampPending => exists i :: 0 <= i < |s.threads| && PendingAt(b, s.threads[i])
  }

  ghost predicate Free(s: State, b: nat, e: Event, causes: set<Cause>) {
    Takes(s, b, e) ==> forall c :: c in causes ==> !Present(s, b, e, c)
  }

  /** No token of bucket b is taken in the presence of any of the causes. */
  ghost predicate FreeRun(l: Limits, s: State, b: nat, causes: set<Cause>, es: seq<Event>)
    decreases |es|
  {
    es == [] || (Free(s, b, es[0], causes) && FreeRun(l, Step(l, s, es[0]), b, causes, es[1..]))
  }

  /** The rate bound at bucket b. */
  ghost predicate WithinRate(l: Limits, s: State, b: nat) {
    b < |s.cells| ==>
      (SCALE * Sum(s.threads, Admitted(b))) as real
        <= l.capacity as real + (s.clock - s.cells[b].created) as real * l.rate
  }

  // ----- Without the causes the bound holds

  /** Up to when bucket b has been refilled: the clock reading of a request that still has to swap the
      timestamp, or else the timestamp. */
  ghost predicate RefilledTo(s: State, b: nat, at: int)
    requires b < |s.cells|
  {
    && (forall i :: 0 <= i < |s.threads| && PendingAt(b, s.threads[i]) ==>
          s.threads[i].at.now == at && s.threads[i].at.stamp == s.cells[b].bucket.refilled)
    && (at == s.cells[b].bucket.refilled || exists i :: 0 <= i < |s.threads| && PendingAt(b, s.threads[i]))
  }

  ghost predicate OnePending(s: State, b: nat) {
    forall i, j :: 0 <= i < |s.threads| && 0 <= j < |s.threads| ==>
      (PendingAt(b, s.threads[i]) && PendingAt(b, s.threads[j]) ==> i == j)
  }

  /** Admissions and tokens left never exceed the capacity and what flowed in. */
  ghost predicate Paid(l: Limits, s: State, b: nat, at: int)
    requires b < |s.cells|
  {
    && s.cells[b].created <= at <= s.clock
    && RefilledTo(s, b, at) && OnePending(s, b)
    && (SCALE * Sum(s.threads, Admitted(b)) + s.cells[b].bucket.tokens) as real
       <= l.capacity as real + Flow(l, at - s.cells[b].created)
  }

  /** The invariant; a bucket that does not exist admitted nobody. */
  ghost predicate Accounted(l: Limits, s: State, b: nat) {
    if b < |s.cells| then exists at :: Paid(l, s, b, at) else Sum(s.threads, Admitted(b)) == 0
  }

  /** Taking a token is paid by what was there and what flowed in since. */
  lemma TakingIsPaid(l: Limits, created: int, at: int, now: int, tokens: int, admitted: int)
    requires Sane(l) && created <= at <= now
    requires (SCALE * admitted + tokens) as real <= l.capacity as real + Flow(l, at - created)
    ensures
      var left := Level(l, Bucket(at, tokens), now) - SCALE;
      (SCALE * (admitted + 1) + left) as real <= l.capacity as real + Flow(l, now - created)
  {
    AccruedBounds(l, now - at);
    FlowAdds(l, at - created, now - at);
  }

  /** What one action of a thread does at bucket b: take a token, swap the timestamp, or neither. */
  lemma ActionAtBucket(l: Limits, s: State, b: nat, t: nat)
    requires t < |s.threads| && b < |s.cells|
    ensures
      var s', th := Step(l, s, Run(t)), s.threads[t];
      && |s'.threads| == |s.threads| && s'.threads == s.threads[t := s'.threads[t]]
      && s'.clock == s.clock && b < |s'.cells| && s'.cells[b].created == s.cells[b].created
      && var was, now, th' := s.cells[b].bucket, s'.cells[b].bucket, s'.threads[t];
      && (Takes(s, b, Run(t)) ==>
            && now == Bucket(was.refilled, Level(l, Bucket(th.at.stamp, was.tokens), th.at.now) - SCALE)
            && th'.at == SwapStamp(b, th.at.now, th.at.stamp))
      && (PendingAt(b, th) ==>
            && now == Bucket(if was.refilled == th.at.stamp then th.at.now else was.refilled, was.tokens)
            && th'.at == Allowed(b))
      && (!Takes(s, b, Run(t)) && !PendingAt(b, th) ==>
            now == was && !PendingAt(b, th') && Admitted(b)(th') == Admitted(b)(th))
  {
  }

  lemma TakenOnTime(s: State, b: nat, t: nat, at: int)
    requires b < |s.cells| && RefilledTo(s, b, at) && Takes(s, b, Run(t)) && Free(s, b, Run(t), CAUSES)
    ensures s.threads[t].at.stamp == s.cells[b].bucket.refilled == at <= s.threads[t].at.now
    ensures forall i :: 0 <= i < |s.threads| ==> !PendingAt(b, s.threads[i])
  {
    assert !Present(s, b, Run(t), StampMoved) && !Present(s, b, Run(t), ClockBehind);
    assert !Present(s, b, Run(t), StampPending);
  }

  lemma PaidTaking(l: Limits, s: State, b: nat, t: nat, at: int) returns (upTo: int)
    requires Sane(l) && Inv(l, s) && b < |s.cells| && Paid(l, s, b, at)
    requires Takes(s, b, Run(t)) && Free(s, b, Run(t), CAUSES)
    ensures b < |Step(l, s, Run(t)).cells| && Paid(l, Step(l, s, Run(t)), b, upTo)
  {
    var th := s.threads[t];
    TakenOnTime(s, b, t, at);
    assert ThreadOk(l, s, th);
    upTo := th.at.now;
    assert s.cells[b].created <= upTo <= s.clock;
    ActionAtBucket(l, s, b, t);
    TakingIsPaid(l, s.cells[b].created, at, upTo, s.cells[b].bucket.tokens, Sum(s.threads, Admitted(b)));
    var s' := Step(l, s, Run(t));
    SumUpdate(s.threads, t, s'.threads[t], Admitted(b));
    hide Step, Inv, Level, Flow, Free, ThreadOk;
    assert PendingAt(b, s'.threads[t]);
    assert RefilledTo(s', b, upTo) && OnePending(s', b);
  }

  lemma PaidStamping(l: Limits, s: State, b: nat, t: nat, at: int)
    requires b < |s.cells| && Paid(l, s, b, at) && t < |s.threads| && PendingAt(b, s.threads[t])
    ensures b < |Step(l, s, Run(t)).cells| && Paid(l, Step(l, s, Run(t)), b, at)
  {
    ActionAtBucket(l, s, b, t);
    var s' := Step(l, s, Run(t));
    SumUpdate(s.threads, t, s'.threads[t], Admitted(b));
    hide Step, Level, Flow;
  }

  lemma PaidElsewhere(l: Limits, s: State, b: nat, t: nat, at: int)
    requires b < |s.cells| && Paid(l, s, b, at) && t < |s.threads|
    requires !PendingAt(b, s.threads[t]) && !Takes(s, b, Run(t))
    ensures b < |Step(l, s, Run(t)).cells| && Paid(l, Step(l, s, Run(t)), b, at)
  {
    ActionAtBucket(l, s, b, t);
    var s' := Step(l, s, Run(t));
    SumUpdate(s.threads, t, s'.threads[t], Admitted(b));
    hide Step, Level, Flow, Admitted;
    if at != s.cells[b].bucket.refilled {
      var i :| 0 <= i < |s.threads| && PendingAt(b, s.threads[i]);
      assert PendingAt(b, s'.threads[i]);
    }
  }

  /** A bucket starts full, with nobody at it. */
  lemma PaidBirth(l: Limits, s: State, b: nat, t: nat)
    requires Sane(l) && Inv(l, s) && t < |s.threads| && b >= |s.cells| && Sum(s.threads, Admitted(b)) == 0
    ensures Accounted(l, Step(l, s, Run(t)), b)
  {
    var s' := Step(l, s, Run(t));
    UnbornAction(l, s, b, t);
    RunOwnThread(l, s, t);
    StepInv(l, s, Run(t));
    assert s'.threads == s.threads[t := s'.threads[t]];
    SumUpdate(s.threads, t, s'.threads[t], Admitted(b));
    if b < |s'.cells| {
      NobodyPending(l, s, b, t);
      assert CellOk(l, s', s'.cells[b]);
      assert Flow(l, 0) == 0.0;
      assert Paid(l, s', b, s'.cells[b].created);
    }
  }

  lemma NobodyPending(l: Limits, s: State, b: nat, t: nat)
    requires Inv(l, s) && t < |s.threads| && b >= |s.cells|
    ensures forall i :: 0 <= i < |Step(l, s, Run(t)).threads| ==> !PendingAt(b, Step(l, s, Run(t)).threads[i])
  {
    var s' := Step(l, s, Run(t));
    RunOwnThread(l, s, t);
    UnbornAction(l, s, b, t);
    forall i | 0 <= i < |s'.threads| && i != t
      ensures !PendingAt(b, s'.threads[i])
    {
      assert ThreadOk(l, s, s.threads[i]);
    }
  }

  lemma AccountedStep(l: Limits, s: State, b: nat, e: Event)
    requires Sane(l) && Inv(l, s) && Accounted(l, s, b) && Free(s, b, e, CAUSES)
    ensures Accounted(l, Step(l, s, e), b)
  {
    match e
    case Call(key) =>
      SumAppend(s.threads, Thread(key, Lookup), Admitted(b));
      if b < |s.cells| {
        var at :| Paid(l, s, b, at);
        PaidCall(l, s, b, at, key);
      }
    case Tick(nanos) =>
      if b < |s.cells| {
        var at :| Paid(l, s, b, at);
        assert Paid(l, Step(l, s, e), b, at);
      }
    case Run(t) =>
      if t >= |s.threads| {
      } else if b >= |s.cells| {
        PaidBirth(l, s, b, t);
      } else {
        var at :| Paid(l, s, b, at);
        if Takes(s, b, e) {
          var upTo := PaidTaking(l, s, b, t, at);
        } else if PendingAt(b, s.threads[t]) {
          PaidStamping(l, s, b, t, at);
        } else {
          PaidElsewhere(l, s, b, t, at);
        }
      }
  }

  lemma PaidCall(l: Limits, s: State, b: nat, at: int, key: string)
    requires b < |s.cells| && Paid(l, s, b, at)
    ensures Paid(l, Step(l, s, Call(key)), b, at)
  {
    var s' := Step(l, s, Call(key));
    SumAppend(s.threads, Thread(key, Lookup), Admitted(b));
    assert forall i :: 0 <= i < |s.threads| ==> s'.threads[i] == s.threads[i];
    if at != s.cells[b].bucket.refilled {
      var i :| 0 <= i < |s.threads| && PendingAt(b, s.threads[i]);
      assert PendingAt(b, s'.threads[i]);
    }
  }

  lemma {:induction false} AccountedExec(l: Limits, s: State, b: nat, es: seq<Event>)
    requires Sane(l) && Inv(l, s) && Accounted(l, s, b) && FreeRun(l, s, b, CAUSES, es)
    ensures Inv(l, Exec(l, s, es)) && Accounted(l, Exec(l, s, es), b)
    decreases |es|
  {
    if es != [] {
      StepInv(l, s, es[0]);
      AccountedStep(l, s, b, es[0]);
      AccountedExec(l, Step(l, s, es[0]), b, es[1..]);
    }
  }

  lemma PaidIsWithinRate(l: Limits, s: State, b: nat, at: int)
    requires Sane(l) && b < |s.cells| && Paid(l, s, b, at) && 0 <= s.cells[b].bucket.tokens
    ensures WithinRate(l, s, b)
  {
    hide Flow, RefilledTo, OnePending;
    var created, admitted := s.cells[b].created, Sum(s.threads, Admitted(b));
    var elapsed: nat := s.clock - created;
    FlowAdds(l, at - created, s.clock - at);
    FlowNonNegative(l, s.clock - at);
    FlowIsProduct(l, elapsed);
    assert (SCALE * admitted) as real <= l.capacity as real + Flow(l, elapsed);
  }

  /** The rate bound under interleaving: if every token of a bucket is taken with its current timestamp, by a
      request whose clock is not behind it, while no timestamp swap is pending, then at every moment the
      admissions cost at most the capacity plus the rate times the time since the bucket was created. */
  lemma RateBoundInterleaved(l: Limits, es: seq<Event>, b: nat)
    requires Sane(l) && FreeRun(l, START, b, CAUSES, es)
    ensures WithinRate(l, Exec(l, START, es), b)
  {
    AccountedExec(l, START, b, es);
    hide Exec, FreeRun, Paid, WithinRate;
    var s := Exec(l, START, es);
    if b < |s.cells| {
      var at :| Paid(l, s, b, at);
      assert CellOk(l, s, s.cells[b]);
      PaidIsWithinRate(l, s, b, at);
    }
  }
}
