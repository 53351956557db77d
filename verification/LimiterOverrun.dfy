/** Each of the three causes alone lets the limiter admit more than its rate allows: for each there is a schedule
    in which the two others never occur. */
module LimiterOverrun {
  import opened Numbers
  import opened TokenBucket
  import opened LimiterMachine
  import opened LimiterRate
  import opened Sums

  /** The schedule avoids the causes, and ends above the rate bound. */
  ghost predicate Overruns(l: Limits, s: State, causes: set<Cause>, es: seq<Event>) {
    FreeRun(l, s, 0, causes, es) && !WithinRate(l, Exec(l, s, es), 0)
  }

  lemma Prepend(l: Limits, s: State, causes: set<Cause>, e: Event, es: seq<Event>)
    requires Free(s, 0, e, causes) && Overruns(l, Step(l, s, e), causes, es)
    ensures Overruns(l, s, causes, [e] + es)
  {
    hide Step, Free, WithinRate;
    assert ([e] + es)[1..] == es;
  }

  /** One bucket, created at time zero, with requests at these places. */
  ghost function Scene(refilled: int, tokens: int, clock: int, at: seq<Place>): State {
    State(map["k" := 0], [Cell(Bucket(refilled, tokens), 0)],
          seq(|at|, i requires 0 <= i < |at| => Thread("k", at[i])), 0, clock)
  }

  /** Token by token at one scaled token per nanosecond. */
  lemma UnitLevel(capacity: int, stamp: int, seen: int, now: int)
    ensures Level(Limits(1.0, capacity), Bucket(stamp, seen), now) == Min(seen + Elapsed(stamp, now), capacity)
  {
    FlowIsProduct(Limits(1.0, capacity), Elapsed(stamp, now));
  }

  lemma SceneUpdate(refilled: int, tokens: int, clock: int, at: seq<Place>, t: nat, p: Place)
    requires t < |at|
    ensures Scene(refilled, tokens, clock, at).threads[t := Thread("k", p)]
         == Scene(refilled, tokens, clock, at[t := p]).threads
  {
  }

  /** A request reads the timestamp. */
  lemma PrependReadStamp(l: Limits, refilled: int, tokens: int, clock: int, at: seq<Place>, t: nat, now: int,
                         causes: set<Cause>, es: seq<Event>)
    requires t < |at| && at[t] == ReadStamp(0, now)
    requires Overruns(l, Scene(refilled, tokens, clock, at[t := ReadTokens(0, now, refilled)]), causes, es)
    ensures Overruns(l, Scene(refilled, tokens, clock, at), causes, [Run(t)] + es)
  {
    hide Overruns;
    SceneUpdate(refilled, tokens, clock, at, t, ReadTokens(0, now, refilled));
    Prepend(l, Scene(refilled, tokens, clock, at), causes, Run(t), es);
  }

  /** It reads the tokens and finds at least one. */
  lemma PrependReadTokens(l: Limits, refilled: int, tokens: int, clock: int, at: seq<Place>, t: nat, now: int,
                          stamp: int, causes: set<Cause>, es: seq<Event>)
    requires t < |at| && at[t] == ReadTokens(0, now, stamp) && Level(l, Bucket(stamp, tokens), now) >= SCALE
    requires Overruns(l, Scene(refilled, tokens, clock, at[t := SwapTokens(0, now, stamp, tokens)]), causes, es)
    ensures Overruns(l, Scene(refilled, tokens, clock, at), causes, [Run(t)] + es)
  {
    hide Overruns, Level;
    SceneUpdate(refilled, tokens, clock, at, t, SwapTokens(0, now, stamp, tokens));
    Prepend(l, Scene(refilled, tokens, clock, at), causes, Run(t), es);
  }

  /** It takes one. */
  lemma PrependTake(l: Limits, refilled: int, tokens: int, clock: int, at: seq<Place>, t: nat, now: int,
                    stamp: int, causes: set<Cause>, es: seq<Event>)
    requires t < |at| && at[t] == SwapTokens(0, now, stamp, tokens)
    requires StampMoved in causes ==> stamp == refilled
    requires ClockBehind in causes ==> now >= refilled
    requires StampPending in causes ==> forall i :: 0 <= i < |at| ==> !at[i].SwapStamp?
    requires Overruns(l, Scene(refilled, Level(l, Bucket(stamp, tokens), now) - SCALE, clock,
                               at[t := SwapStamp(0, now, stamp)]), causes, es)
    ensures Overruns(l, Scene(refilled, tokens, clock, at), causes, [Run(t)] + es)
  {
    hide Overruns, Level;
    SceneUpdate(refilled, tokens, clock, at, t, SwapStamp(0, now, stamp));
    var s := Scene(refilled, tokens, clock, at);
    assert forall i :: 0 <= i < |s.threads| ==> s.threads[i].at == at[i];
    var left := Level(l, Bucket(stamp, tokens), now) - SCALE;
    assert Step(l, s, Run(t)).cells == Scene(refilled, left, clock, at).cells;
    Prepend(l, s, causes, Run(t), es);
  }

  /** It swaps the timestamp it read. */
  lemma PrependStamp(l: Limits, refilled: int, tokens: int, clock: int, at: seq<Place>, t: nat, now: int,
                     causes: set<Cause>, es: seq<Event>)
    requires t < |at| && at[t] == SwapStamp(0, now, refilled)
    requires Overruns(l, Scene(now, tokens, clock, at[t := Allowed(0)]), causes, es)
    ensures Overruns(l, Scene(refilled, tokens, clock, at), causes, [Run(t)] + es)
  {
    hide Overruns;
    SceneUpdate(refilled, tokens, clock, at, t, Allowed(0));
    assert Step(l, Scene(refilled, tokens, clock, at), Run(t)).cells == Scene(now, tokens, clock, at).cells;
    Prepend(l, Scene(refilled, tokens, clock, at), causes, Run(t), es);
  }

  /** A request reads, reads and takes, undisturbed. */
  lemma PrependTaking(l: Limits, refilled: int, tokens: int, clock: int, at: seq<Place>, t: nat, now: int,
                      causes: set<Cause>, es: seq<Event>) returns (fs: seq<Event>)
    requires t < |at| && at[t] == ReadStamp(0, now) && Level(l, Bucket(refilled, tokens), now) >= SCALE
    requires ClockBehind in causes ==> now >= refilled
    requires StampPending in causes ==> forall i :: 0 <= i < |at| ==> !at[i].SwapStamp?
    requires Overruns(l, Scene(refilled, Level(l, Bucket(refilled, tokens), now) - SCALE, clock,
                               at[t := SwapStamp(0, now, refilled)]), causes, es)
    ensures Overruns(l, Scene(refilled, tokens, clock, at), causes, fs)
  {
    hide Overruns, Level;
    var reading, taking := at[t := ReadTokens(0, now, refilled)], at[t := SwapTokens(0, now, refilled, tokens)];
    assert taking[t := SwapStamp(0, now, refilled)] == at[t := SwapStamp(0, now, refilled)];
    assert reading[t := SwapTokens(0, now, refilled, tokens)] == taking;
    PrependTake(l, refilled, tokens, clock, taking, t, now, refilled, causes, es);
    PrependReadTokens(l, refilled, tokens, clock, reading, t, now, refilled, causes, [Run(t)] + es);
    PrependReadStamp(l, refilled, tokens, clock, at, t, now, causes, [Run(t)] + ([Run(t)] + es));
    fs := [Run(t)] + ([Run(t)] + ([Run(t)] + es));
  }

  /** The whole passage of a request, undisturbed. */
  lemma PrependPass(l: Limits, refilled: int, tokens: int, clock: int, at: seq<Place>, t: nat, now: int,
                    causes: set<Cause>, es: seq<Event>) returns (fs: seq<Event>)
    requires t < |at| && at[t] == ReadStamp(0, now) && Level(l, Bucket(refilled, tokens), now) >= SCALE
    requires ClockBehind in causes ==> now >= refilled
    requires StampPending in causes ==> forall i :: 0 <= i < |at| ==> !at[i].SwapStamp?
    requires Overruns(l, Scene(now, Level(l, Bucket(refilled, tokens), now) - SCALE, clock, at[t := Allowed(0)]),
                      causes, es)
    ensures Overruns(l, Scene(refilled, tokens, clock, at), causes, fs)
  {
    hide Overruns, Level;
    var left, stamping := Level(l, Bucket(refilled, tokens), now) - SCALE, at[t := SwapStamp(0, now, refilled)];
    assert stamping[t := Allowed(0)] == at[t := Allowed(0)];
    PrependStamp(l, refilled, left, clock, stamping, t, now, causes, es);
    fs := PrependTaking(l, refilled, tokens, clock, at, t, now, causes, [Run(t)] + es);
  }

  /** A request comes, finds the bucket and reads the clock. */
  lemma PrependArrival(l: Limits, refilled: int, tokens: int, clock: int, at: seq<Place>, causes: set<Cause>,
                       es: seq<Event>) returns (fs: seq<Event>)
    requires Overruns(l, Scene(refilled, tokens, clock, at + [ReadStamp(0, clock)]), causes, es)
    ensures Overruns(l, Scene(refilled, tokens, clock, at), causes, fs)
  {
    hide Overruns;
    var t := |at|;
    var looking, reading, ready := at + [Lookup], at + [ReadClock(0)], at + [ReadStamp(0, clock)];
    assert looking[t := ReadClock(0)] == reading && reading[t := ReadStamp(0, clock)] == ready;
    SceneUpdate(refilled, tokens, clock, reading, t, ReadStamp(0, clock));
    Prepend(l, Scene(refilled, tokens, clock, reading), causes, Run(t), es);
    SceneUpdate(refilled, tokens, clock, looking, t, ReadClock(0));
    Prepend(l, Scene(refilled, tokens, clock, looking), causes, Run(t), [Run(t)] + es);
    assert Scene(refilled, tokens, clock, at).threads + [Thread("k", Lookup)]
        == Scene(refilled, tokens, clock, looking).threads;
    Prepend(l, Scene(refilled, tokens, clock, at), causes, Call("k"), [Run(t)] + ([Run(t)] + es));
    fs := [Call("k")] + ([Run(t)] + ([Run(t)] + es));
  }

  lemma PrependTick(l: Limits, refilled: int, tokens: int, clock: int, nanos: nat, at: seq<Place>,
                    causes: set<Cause>, es: seq<Event>)
    requires Overruns(l, Scene(refilled, tokens, clock + nanos, at), causes, es)
    ensures Overruns(l, Scene(refilled, tokens, clock, at), causes, [Tick(nanos)] + es)
  {
    hide Overruns;
    Prepend(l, Scene(refilled, tokens, clock, at), causes, Tick(nanos), es);
  }

  /** The first request creates the bucket at time zero and reads the clock at once. */
  lemma PrependBirth(l: Limits, causes: set<Cause>, es: seq<Event>) returns (fs: seq<Event>)
    requires Overruns(l, Scene(0, l.capacity, 0, [ReadStamp(0, 0)]), causes, es)
    ensures Overruns(l, START, causes, fs)
  {
    hide Overruns;
    var r := Run(0);
    var s1 := Step(l, START, Call("k"));
    var s2 := Step(l, s1, r);
    var s3 := Step(l, s2, r);
    var s4 := Step(l, s3, r);
    assert s4 == Scene(0, l.capacity, 0, [ReadClock(0)]);
    SceneUpdate(0, l.capacity, 0, [ReadClock(0)], 0, ReadStamp(0, 0));
    assert [ReadClock(0)][0 := ReadStamp(0, 0)] == [ReadStamp(0, 0)];
    Prepend(l, s4, causes, r, es);
    Prepend(l, s3, causes, r, [r] + es);
    Prepend(l, s2, causes, r, [r] + ([r] + es));
    Prepend(l, s1, causes, r, [r] + ([r] + ([r] + es)));
    Prepend(l, START, causes, Call("k"), [r] + ([r] + ([r] + ([r] + es))));
    fs := [Call("k")] + ([r] + ([r] + ([r] + ([r] + es))));
  }

  /** Three admissions, or four, with one token's time gone by. */
  lemma ThreeAreTooMany(refilled: int, p: Place, q: Place, r: Place, causes: set<Cause>)
    requires forall x :: x in [p, q, r] ==> (x.SwapStamp? || x.Allowed?) && x.bucket == 0
    ensures Overruns(Limits(1.0, SCALE), Scene(refilled, 0, SCALE, [p, q, r]), causes, [])
  {
    var threads := Scene(refilled, 0, SCALE, [p, q, r]).threads;
    assert threads[0].at == p && threads[1].at == q && threads[2].at == r;
    CountThree(threads);
  }

  lemma CountThree(threads: seq<Thread>)
    requires |threads| == 3 && forall th :: th in threads ==> Admitted(0)(th) == 1
    ensures Sum(threads, Admitted(0)) == 3
  {
    assert threads == [threads[0], threads[1]] + [threads[2]] == [threads[0]] + [threads[1]] + [threads[2]];
    SumAppend([threads[0], threads[1]], threads[2], Admitted(0));
    assert [threads[0], threads[1]] == [threads[0]] + [threads[1]];
    SumAppend([threads[0]], threads[1], Admitted(0));
    SumAppend([], threads[0], Admitted(0));
    assert [] + [threads[0]] == [threads[0]];
  }

  lemma FourAreTooMany(refilled: int, causes: set<Cause>)
    ensures Overruns(Limits(1.0, 2 * SCALE),
                     Scene(refilled, 0, SCALE, [Allowed(0), Allowed(0), Allowed(0), Allowed(0)]), causes, [])
  {
    var threads := Scene(refilled, 0, SCALE, [Allowed(0), Allowed(0), Allowed(0), Allowed(0)]).threads;
    CountThree(threads[..3]);
    SumAppend(threads[..3], threads[3], Admitted(0));
    assert threads == threads[..3] + [threads[3]];
  }

  /** Only a pending timestamp swap: with room for one token and one token's time gone by, two requests take that
      time's token, the second between the two swaps of the first. Three are admitted where the bound allows two. */
  lemma PendingStampOverruns() returns (es: seq<Event>)
    ensures Overruns(Limits(1.0, SCALE), START, {StampMoved, ClockBehind}, es)
  {
    hide Overruns;
    var l, causes := Limits(1.0, SCALE), {StampMoved, ClockBehind};
    var first, waiting, taken := Allowed(0), ReadStamp(0, SCALE), SwapStamp(0, SCALE, 0);
    UnitLevel(SCALE, 0, SCALE, 0);
    UnitLevel(SCALE, 0, 0, SCALE);
    hide Level;
    ThreeAreTooMany(0, first, taken, taken, causes);
    assert [first, taken, waiting][2 := taken] == [first, taken, taken];
    es := PrependTaking(l, 0, 0, SCALE, [first, taken, waiting], 2, SCALE, causes, []);
    assert [first, waiting, waiting][1 := taken] == [first, taken, waiting];
    es := PrependTaking(l, 0, 0, SCALE, [first, waiting, waiting], 1, SCALE, causes, es);
    assert [first, waiting] + [waiting] == [first, waiting, waiting] && [first] + [waiting] == [first, waiting];
    es := PrependArrival(l, 0, 0, SCALE, [first, waiting], causes, es);
    es := PrependArrival(l, 0, 0, SCALE, [first], causes, es);
    PrependTick(l, 0, 0, 0, SCALE, [first], causes, es);
    assert [ReadStamp(0, 0)][0 := first] == [first];
    es := PrependPass(l, 0, SCALE, 0, [ReadStamp(0, 0)], 0, 0, causes, [Tick(SCALE)] + es);
    es := PrependBirth(l, causes, es);
  }

  /** Only a stale timestamp: the third request reads the timestamp before the second one's passage and the
      tokens after it. */
  lemma MovedStampOverruns() returns (es: seq<Event>)
    ensures Overruns(Limits(1.0, SCALE), START, {ClockBehind, StampPending}, es)
  {
    hide Overruns;
    var l, causes := Limits(1.0, SCALE), {ClockBehind, StampPending};
    var done, waiting, torn := Allowed(0), ReadStamp(0, SCALE), ReadTokens(0, SCALE, 0);
    var taking, taken := SwapTokens(0, SCALE, 0, 0), SwapStamp(0, SCALE, 0);
    UnitLevel(SCALE, 0, SCALE, 0);
    UnitLevel(SCALE, 0, 0, SCALE);
    hide Level;
    ThreeAreTooMany(SCALE, done, done, taken, causes);
    assert [done, done, taking][2 := taken] == [done, done, taken];
    PrependTake(l, SCALE, 0, SCALE, [done, done, taking], 2, SCALE, 0, causes, []);
    assert [done, done, torn][2 := taking] == [done, done, taking];
    PrependReadTokens(l, SCALE, 0, SCALE, [done, done, torn], 2, SCALE, 0, causes, [Run(2)] + []);
    assert [done, waiting, torn][1 := done] == [done, done, torn];
    es := PrependPass(l, 0, 0, SCALE, [done, waiting, torn], 1, SCALE, causes, [Run(2)] + ([Run(2)] + []));
    assert [done, waiting, waiting][2 := torn] == [done, waiting, torn];
    PrependReadStamp(l, 0, 0, SCALE, [done, waiting, waiting], 2, SCALE, causes, es);
    assert [done, waiting] + [waiting] == [done, waiting, waiting] && [done] + [waiting] == [done, waiting];
    es := PrependArrival(l, 0, 0, SCALE, [done, waiting], causes, [Run(2)] + es);
    es := PrependArrival(l, 0, 0, SCALE, [done], causes, es);
    PrependTick(l, 0, 0, 0, SCALE, [done], causes, es);
    assert [ReadStamp(0, 0)][0 := done] == [done];
    es := PrependPass(l, 0, SCALE, 0, [ReadStamp(0, 0)], 0, 0, causes, [Tick(SCALE)] + es);
    es := PrependBirth(l, causes, es);
  }

  /** Only a clock reading behind the timestamp: a request that read the clock early puts the timestamp back, and
      the same time is paid again. Four are admitted, one after another, where the bound allows three. */
  lemma LateRequestOverruns() returns (es: seq<Event>)
    ensures Overruns(Limits(1.0, 2 * SCALE), START, {StampMoved, StampPending}, es)
  {
    hide Overruns;
    var l, causes := Limits(1.0, 2 * SCALE), {StampMoved, StampPending};
    var done, late, waiting := Allowed(0), ReadStamp(0, 0), ReadStamp(0, SCALE);
    UnitLevel(2 * SCALE, 0, 2 * SCALE, 0);
    UnitLevel(2 * SCALE, 0, SCALE, SCALE);
    UnitLevel(2 * SCALE, SCALE, SCALE, 0);
    UnitLevel(2 * SCALE, 0, 0, SCALE);
    hide Level;
    FourAreTooMany(SCALE, causes);
    assert [done, done, done, waiting][3 := done] == [done, done, done, done];
    es := PrependPass(l, 0, 0, SCALE, [done, done, done, waiting], 3, SCALE, causes, []);
    assert [late, done, done, waiting][0 := done] == [done, done, done, waiting];
    es := PrependPass(l, SCALE, SCALE, SCALE, [late, done, done, waiting], 0, 0, causes, es);
    assert [late, done, waiting, waiting][2 := done] == [late, done, done, waiting];
    es := PrependPass(l, 0, SCALE, SCALE, [late, done, waiting, waiting], 2, SCALE, causes, es);
    assert [late, done, waiting] + [waiting] == [late, done, waiting, waiting];
    assert [late, done] + [waiting] == [late, done, waiting] && [late] + [late] == [late, late];
    es := PrependArrival(l, 0, SCALE, SCALE, [late, done, waiting], causes, es);
    es := PrependArrival(l, 0, SCALE, SCALE, [late, done], causes, es);
    PrependTick(l, 0, SCALE, 0, SCALE, [late, done], causes, es);
    assert [late, late][1 := done] == [late, done];
    es := PrependPass(l, 0, 2 * SCALE, 0, [late, late], 1, 0, causes, [Tick(SCALE)] + es);
    es := PrependArrival(l, 0, 2 * SCALE, 0, [late], causes, es);
    es := PrependBirth(l, causes, es);
  }

  /** So none of the three conditions of the rate bound can be spared. */
  lemma EveryConditionIsNeeded(spared: Cause)
    ensures exists l, es :: Sane(l) && Overruns(l, START, CAUSES - {spared}, es)
  {
    var es: seq<Event>;
    match spared
    case StampPending =>
      es := PendingStampOverruns();
      assert CAUSES - {spared} == {StampMoved, ClockBehind};
      assert Sane(Limits(1.0, SCALE));
    case StampMoved =>
      es := MovedStampOverruns();
      assert CAUSES - {spared} == {ClockBehind, StampPending};
      assert Sane(Limits(1.0, SCALE));
    case ClockBehind =>
      es := LateRequestOverruns();
      assert CAUSES - {spared} == {StampMoved, StampPending};
      assert Sane(Limits(1.0, 2 * SCALE));
  }
}
