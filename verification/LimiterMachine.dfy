/** Every interleaving of requests at the limiter: bucket creation, clock reads, loads and swaps are single
    steps of any number of threads, under one clock that never runs backwards. */
module LimiterMachine {
  import opened TokenBucket
  import opened Sums

  datatype Place =
    | Lookup
    | Make                                                      // no bucket found: read the clock, fill a new one
    | Publish(created: int)                                     // load-or-store it
    | ReadClock(bucket: nat)
    | ReadStamp(bucket: nat, now: int)
    | ReadTokens(bucket: nat, now: int, stamp: int)
    | SwapTokens(bucket: nat, now: int, stamp: int, seen: int)
    | SwapStamp(bucket: nat, now: int, stamp: int)
    | CountBlocked(bucket: nat)
    | Allowed(bucket: nat)
    | Denied(bucket: nat)

  datatype Thread = Thread(key: string, at: Place)

  /** A bucket with the time it was created, which no step reads. */
  datatype Cell = Cell(bucket: Bucket, created: int)

  datatype State = State(clients: map<string, nat>, cells: seq<Cell>, threads: seq<Thread>, blocked: nat, clock: int)

  datatype Event = Call(key: string) | Run(thread: nat) | Tick(nanos: nat)

  /** Whether the place refers to a bucket, and to which. */
  predicate AtBucket(p: Place) {
    !p.Lookup? && !p.Make? && !p.Publish?
  }

  function Advance(l: Limits, s: State, t: nat): State
    requires t < |s.threads|
  {
    var th := s.threads[t];
    if AtBucket(th.at) && th.at.bucket >= |s.cells| then s
    else
      match th.at
      case Lookup =>
        s.(threads := s.threads[t := th.(at := if th.key in s.clients then ReadClock(s.clients[th.key]) else Make)])
      case Make => s.(threads := s.threads[t := th.(at := Publish(s.clock))])
      case Publish(created) =>
        if th.key in s.clients then s.(threads := s.threads[t := th.(at := ReadClock(s.clients[th.key]))])
        else
          s.(clients := s.clients[th.key := |s.cells|],
             cells := s.cells + [Cell(Bucket(created, l.capacity), created)],
             threads := s.threads[t := th.(at := ReadClock(|s.cells|))])
      case ReadClock(b) => s.(threads := s.threads[t := th.(at := ReadStamp(b, s.clock))])
      case ReadStamp(b, now) =>
        s.(threads := s.threads[t := th.(at := ReadTokens(b, now, s.cells[b].bucket.refilled))])
      case ReadTokens(b, now, stamp) =>
        var seen := s.cells[b].bucket.tokens;
        s.(threads := s.threads[t := th.(at :=
          if Level(l, Bucket(stamp, seen), now) < SCALE then CountBlocked(b) else SwapTokens(b, now, stamp, seen))])
      case SwapTokens(b, now, stamp, seen) =>
        if s.cells[b].bucket.tokens == seen then
          SetBucket(s, b, s.cells[b].bucket.(tokens := Level(l, Bucket(stamp, seen), now) - SCALE))
          .(threads := s.threads[t := th.(at := SwapStamp(b, now, stamp))])
        else s.(threads := s.threads[t := th.(at := ReadStamp(b, now))])
      case SwapStamp(b, now, stamp) =>
        (if s.cells[b].bucket.refilled == stamp then SetBucket(s, b, s.cells[b].bucket.(refilled := now)) else s)
        .(threads := s.threads[t := th.(at := Allowed(b))])
      case CountBlocked(b) =>
        s.(blocked := s.blocked + 1, threads := s.threads[t := th.(at := Denied(b))])
      case Allowed(_) => s
      case Denied(_) => s
  }

  function SetBucket(s: State, b: nat, bucket: Bucket): State
    requires b < |s.cells|
  {
    s.(cells := s.cells[b := s.cells[b].(bucket := bucket)])
  }

  function Step(l: Limits, s: State, e: Event): State {
    match e
    case Call(key) => s.(threads := s.threads + [Thread(key, Lookup)])
    case Tick(nanos) => s.(clock := s.clock + nanos)
    case Run(t) => if t < |s.threads| then Advance(l, s, t) else s
  }

  function Exec(l: Limits, s: State, es: seq<Event>): State
    decreases |es|
  {
    if es == [] then s else Exec(l, Step(l, s, es[0]), es[1..])
  }

  const START := State(map[], [], [], 0, 0)

  // ----- One bucket per key, tokens in range

  /** The admission that took its token from bucket b. */
  ghost function Admitted(b: nat): Thread -> int {
    (th: Thread) => if (th.at.SwapStamp? || th.at.Allowed?) && th.at.bucket == b then 1 else 0
  }

  ghost predicate ThreadOk(l: Limits, s: State, th: Thread) {
    && (AtBucket(th.at) ==> th.key in s.clients && th.at.bucket == s.clients[th.key])
    && (th.at.Publish? ==> th.at.created <= s.clock)
    && (th.at.ReadStamp? || th.at.ReadTokens? || th.at.SwapTokens? || th.at.SwapStamp? ==>
          AtBucket(th.at) && th.at.bucket < |s.cells| && s.cells[th.at.bucket].created <= th.at.now <= s.clock)
    && (th.at.ReadTokens? || th.at.SwapTokens? || th.at.SwapStamp? ==>
          th.at.bucket < |s.cells| && s.cells[th.at.bucket].created <= th.at.stamp)
    && (th.at.SwapTokens? ==>
          0 <= th.at.seen <= l.capacity && Level(l, Bucket(th.at.stamp, th.at.seen), th.at.now) >= SCALE)
  }

  ghost predicate CellOk(l: Limits, s: State, c: Cell) {
    0 <= c.bucket.tokens <= l.capacity && c.created <= c.bucket.refilled && c.created <= s.clock
  }

  ghost predicate Inv(l: Limits, s: State) {
    && (forall k :: k in s.clients ==> s.clients[k] < |s.cells|)
    && (forall j, k :: j in s.clients && k in s.clients && j != k ==> s.clients[j] != s.clients[k])
    && (forall i :: 0 <= i < |s.cells| ==> CellOk(l, s, s.cells[i]))
    && (forall i :: 0 <= i < |s.threads| ==> ThreadOk(l, s, s.threads[i]))
  }

  lemma LevelInRange(l: Limits, b: Bucket, now: int)
    requires Sane(l) && 0 <= b.tokens <= l.capacity
    ensures 0 <= Level(l, b, now) <= l.capacity
  {
    AccruedBounds(l, Elapsed(b.refilled, now));
  }

  /** No step takes a key's bucket away, changes when a bucket was created or turns the clock back. */
  ghost predicate Extends(s: State, s': State) {
    && (forall k :: k in s.clients ==> k in s'.clients && s'.clients[k] == s.clients[k])
    && |s.cells| <= |s'.cells| && s.clock <= s'.clock
    && (forall i :: 0 <= i < |s.cells| ==> s'.cells[i].created == s.cells[i].created)
  }

  lemma StaysOk(l: Limits, s: State, s': State, th: Thread)
    requires Extends(s, s') && ThreadOk(l, s, th)
    ensures ThreadOk(l, s', th)
  {
  }

  /** An action changes at most one cell and keeps it in range. */
  lemma RunCells(l: Limits, s: State, t: nat)
    requires Sane(l) && Inv(l, s) && t < |s.threads|
    ensures
      var s' := Step(l, s, Run(t));
      Extends(s, s') && forall i :: 0 <= i < |s'.cells| ==> CellOk(l, s', s'.cells[i])
  {
    var th := s.threads[t];
    assert ThreadOk(l, s, th);
    if AtBucket(th.at) {
      assert CellOk(l, s, s.cells[th.at.bucket]);
    }
    if th.at.SwapTokens? {
      LevelInRange(l, Bucket(th.at.stamp, th.at.seen), th.at.now);
    }
  }

  lemma RunOwnThread(l: Limits, s: State, t: nat)
    requires Inv(l, s) && t < |s.threads|
    ensures
      var s' := Step(l, s, Run(t));
      |s'.threads| == |s.threads| && ThreadOk(l, s', s'.threads[t])
      && forall i :: 0 <= i < |s.threads| && i != t ==> s'.threads[i] == s.threads[i]
  {
    var th := s.threads[t];
    assert ThreadOk(l, s, th);
    if AtBucket(th.at) {
      assert CellOk(l, s, s.cells[th.at.bucket]);
    }
    if th.key in s.clients {
      assert CellOk(l, s, s.cells[s.clients[th.key]]);
    }
  }

  lemma RunClients(l: Limits, s: State, t: nat)
    requires Inv(l, s) && t < |s.threads|
    ensures
      var s' := Step(l, s, Run(t));
      && (forall k :: k in s'.clients ==> s'.clients[k] < |s'.cells|)
      && (forall j, k :: j in s'.clients && k in s'.clients && j != k ==> s'.clients[j] != s'.clients[k])
  {
  }

  lemma StepInv(l: Limits, s: State, e: Event)
    requires Sane(l) && Inv(l, s)
    ensures Inv(l, Step(l, s, e)) && Extends(s, Step(l, s, e))
  {
    var s' := Step(l, s, e);
    if e.Run? && e.thread < |s.threads| {
      RunCells(l, s, e.thread);
      RunClients(l, s, e.thread);
      RunOwnThread(l, s, e.thread);
    } else {
      forall i | 0 <= i < |s'.cells|
        ensures CellOk(l, s', s'.cells[i])
      {
        assert CellOk(l, s, s.cells[i]);
      }
    }
    forall i | 0 <= i < |s.threads| && e != Run(i)
      ensures ThreadOk(l, s', s'.threads[i])
    {
      StaysOk(l, s, s', s.threads[i]);
    }
  }

  /** In every interleaving: all callers of a key work on its one bucket despite the race to create it, no two
      keys share one, and no bucket's tokens leave [0, capacity]. */
  lemma {:induction false} SharedBucketInRange(l: Limits, s: State, es: seq<Event>)
    requires Sane(l) && Inv(l, s)
    ensures Inv(l, Exec(l, s, es)) && Extends(s, Exec(l, s, es))
    decreases |es|
  {
    if es != [] {
      StepInv(l, s, es[0]);
      SharedBucketInRange(l, Step(l, s, es[0]), es[1..]);
    }
  }

  // ----- While nobody has read a later time than a bucket's creation

  /** The clock reading of a request in the retry loop of bucket b is no later than the bucket's creation. */
  ghost predicate ReadEarly(s: State, b: nat, th: Thread) {
    b < |s.cells| && (th.at.ReadStamp? || th.at.ReadTokens? || th.at.SwapTokens? || th.at.SwapStamp?) ==>
      (th.at.bucket == b ==> th.at.now <= s.cells[b].created)
  }

  /** If the event reads the clock for a request at bucket b, that is no later than the bucket's creation. */
  ghost predicate Early(s: State, b: nat, e: Event) {
    e.Run? && e.thread < |s.threads| && s.threads[e.thread].at == ReadClock(b) && b < |s.cells| ==>
      s.clock <= s.cells[b].created
  }

  ghost predicate EarlyRun(l: Limits, s: State, b: nat, es: seq<Event>)
    decreases |es|
  {
    es == [] || (Early(s, b, es[0]) && EarlyRun(l, Step(l, s, es[0]), b, es[1..]))
  }

  /** Nothing flowed into bucket b, so every missing token was handed to an admitted request; a bucket that
      does not exist admitted nobody. */
  ghost predicate Frozen(l: Limits, s: State, b: nat) {
    && (forall i :: 0 <= i < |s.threads| ==> ReadEarly(s, b, s.threads[i]))
    && if b < |s.cells| then
         && s.cells[b].bucket.refilled == s.cells[b].created
         && s.cells[b].bucket.tokens + SCALE * Sum(s.threads, Admitted(b)) == l.capacity
       else
         Sum(s.threads, Admitted(b)) == 0
  }

  /** One action on an existing bucket: a token taken is a request admitted. */
  lemma FrozenAction(l: Limits, s: State, b: nat, t: nat)
    requires Sane(l) && Inv(l, s) && t < |s.threads|
    requires b < |s.cells| && s.cells[b].bucket.refilled == s.cells[b].created
    requires ReadEarly(s, b, s.threads[t]) && Early(s, b, Run(t))
    ensures
      var s' := Step(l, s, Run(t));
      && |s'.threads| == |s.threads| && b < |s'.cells| && ReadEarly(s', b, s'.threads[t])
      && s'.cells[b].bucket.refilled == s.cells[b].created
      && s'.cells[b].bucket.tokens + SCALE * Admitted(b)(s'.threads[t])
         == s.cells[b].bucket.tokens + SCALE * Admitted(b)(s.threads[t])
  {
    var th := s.threads[t];
    assert ThreadOk(l, s, th);
    assert CellOk(l, s, s.cells[b]);
    if th.at.SwapTokens? && th.at.bucket == b {
      StandsStill(l, th.at.stamp, th.at.seen, th.at.now);
    }
  }

  /** Nobody works on a bucket before it exists, and it starts full. */
  lemma UnbornAction(l: Limits, s: State, b: nat, t: nat)
    requires Inv(l, s) && t < |s.threads| && b >= |s.cells|
    ensures
      var s' := Step(l, s, Run(t));
      && |s'.threads| == |s.threads| && ReadEarly(s', b, s'.threads[t])
      && Admitted(b)(s.threads[t]) == Admitted(b)(s'.threads[t]) == 0
      && (b < |s'.cells| ==> s'.cells[b] == Cell(Bucket(s'.cells[b].created, l.capacity), s'.cells[b].created))
  {
    assert ThreadOk(l, s, s.threads[t]);
  }

  lemma OthersReadEarly(l: Limits, s: State, s': State, b: nat, th: Thread)
    requires Inv(l, s) && Extends(s, s') && ThreadOk(l, s, th) && ReadEarly(s, b, th)
    ensures ReadEarly(s', b, th)
  {
  }

  lemma FrozenRun(l: Limits, s: State, b: nat, t: nat)
    requires Sane(l) && Inv(l, s) && t < |s.threads|
    requires Frozen(l, s, b) && Early(s, b, Run(t))
    ensures Frozen(l, Step(l, s, Run(t)), b)
  {
    var s' := Step(l, s, Run(t));
    RunOwnThread(l, s, t);
    assert Extends(s, s') by {
      RunCells(l, s, t);
    }
    assert ReadEarly(s, b, s.threads[t]);
    if b >= |s.cells| {
      UnbornAction(l, s, b, t);
    } else {
      FrozenAction(l, s, b, t);
    }
    forall i | 0 <= i < |s.threads|
      ensures ReadEarly(s', b, s'.threads[i])
    {
      if i != t {
        assert ReadEarly(s, b, s.threads[i]);
        OthersReadEarly(l, s, s', b, s.threads[i]);
      }
    }
    hide Step, Inv, ThreadOk, Admitted, ReadEarly;
    assert s'.threads == s.threads[t := s'.threads[t]];
    SumUpdate(s.threads, t, s'.threads[t], Admitted(b));
  }

  /** No time, no tokens. */
  lemma StandsStill(l: Limits, stamp: int, seen: int, now: int)
    requires now <= stamp && seen <= l.capacity
    ensures Level(l, Bucket(stamp, seen), now) == seen
  {
    assert Flow(l, 0) == 0.0;
  }

  lemma FrozenStep(l: Limits, s: State, b: nat, e: Event)
    requires Sane(l) && Inv(l, s) && Frozen(l, s, b) && Early(s, b, e)
    ensures Frozen(l, Step(l, s, e), b)
  {
    match e
    case Call(key) =>
      SumAppend(s.threads, Thread(key, Lookup), Admitted(b));
      var s' := Step(l, s, e);
      forall i | 0 <= i < |s'.threads|
        ensures ReadEarly(s', b, s'.threads[i])
      {
        assert i < |s.threads| ==> ReadEarly(s, b, s.threads[i]);
      }
    case Tick(_) =>
      forall i | 0 <= i < |s.threads|
        ensures ReadEarly(Step(l, s, e), b, s.threads[i])
      {
        assert ReadEarly(s, b, s.threads[i]);
      }
    case Run(t) =>
      if t < |s.threads| {
        FrozenRun(l, s, b, t);
      }
  }

  lemma {:induction false} FrozenExec(l: Limits, s: State, b: nat, es: seq<Event>)
    requires Sane(l) && Inv(l, s) && Frozen(l, s, b) && EarlyRun(l, s, b, es)
    ensures Inv(l, Exec(l, s, es)) && Frozen(l, Exec(l, s, es), b)
    decreases |es|
  {
    if es != [] {
      StepInv(l, s, es[0]);
      FrozenStep(l, s, b, es[0]);
      FrozenExec(l, Step(l, s, es[0]), b, es[1..]);
    }
  }

  /** The burst bound, for any number of threads in any interleaving: as long as no caller of a bucket has read
      a time later than its creation, it has admitted at most the whole tokens of its capacity. */
  lemma BurstBound(l: Limits, es: seq<Event>, b: nat)
    requires Sane(l) && EarlyRun(l, START, b, es)
    ensures
      var s := Exec(l, START, es);
      && (b < |s.cells| ==> s.cells[b].bucket.tokens + SCALE * Sum(s.threads, Admitted(b)) == l.capacity)
      && Sum(s.threads, Admitted(b)) <= l.capacity / SCALE
  {
    FrozenExec(l, START, b, es);
    var s := Exec(l, START, es);
    if b < |s.cells| {
      assert CellOk(l, s, s.cells[b]);
    }
  }

  // ----- Progress

  ghost predicate Trying(th: Thread) {
    th.at.ReadStamp? || th.at.ReadTokens? || th.at.SwapTokens?
  }

  /** The thread is in the retry loop or past it. */
  ghost predicate Entered(s: State, t: nat) {
    t < |s.threads| && AtBucket(s.threads[t].at) && !s.threads[t].at.ReadClock? && s.threads[t].at.bucket < |s.cells|
  }

  /** The thread is about to swap a token count that is no longer there. */
  ghost predicate Stale(s: State, t: nat) {
    && t < |s.threads| && s.threads[t].at.SwapTokens? && s.threads[t].at.bucket < |s.cells|
    && s.cells[s.threads[t].at.bucket].bucket.tokens != s.threads[t].at.seen
  }

  /** The event is another thread's change of the tokens that thread t swaps. */
  ghost predicate Foreign(l: Limits, s: State, t: nat, e: Event) {
    && Entered(s, t) && e != Run(t) && s.threads[t].at.bucket < |Step(l, s, e).cells|
    && Step(l, s, e).cells[s.threads[t].at.bucket].bucket.tokens != s.cells[s.threads[t].at.bucket].bucket.tokens
  }

  ghost function ForeignWrites(l: Limits, s: State, t: nat, es: seq<Event>): nat
    decreases |es|
  {
    if es == [] then 0
    else (if Foreign(l, s, t, es[0]) then 1 else 0) + ForeignWrites(l, Step(l, s, es[0]), t, es[1..])
  }

  ghost function Actions(l: Limits, s: State, t: nat, es: seq<Event>): nat
    decreases |es|
  {
    if es == [] then 0
    else (if es[0] == Run(t) && t < |s.threads| && Trying(s.threads[t]) then 1 else 0)
         + Actions(l, Step(l, s, es[0]), t, es[1..])
  }

  ghost function Failures(l: Limits, s: State, t: nat, es: seq<Event>): nat
    decreases |es|
  {
    if es == [] then 0
    else (if es[0] == Run(t) && Stale(s, t) then 1 else 0) + Failures(l, Step(l, s, es[0]), t, es[1..])
  }

  /** Actions the thread may still take in the loop if nobody interferes. */
  ghost function Credit(s: State, t: nat): nat {
    if t >= |s.threads| || !Trying(s.threads[t]) then 0
    else if Stale(s, t) then 4
    else if s.threads[t].at.SwapTokens? then 1
    else if s.threads[t].at.ReadTokens? then 2
    else 3
  }

  lemma StepSpends(l: Limits, s: State, t: nat, e: Event)
    requires Entered(s, t)
    ensures
      var s' := Step(l, s, e);
      && Entered(s', t)
      && (if e == Run(t) && Trying(s.threads[t]) then 1 else 0) + Credit(s', t)
         <= Credit(s, t) + (if Foreign(l, s, t, e) then 3 else 0)
      && (if e == Run(t) && Stale(s, t) then 1 else 0) + (if Stale(s', t) then 1 else 0)
         <= (if Stale(s, t) then 1 else 0) + (if Foreign(l, s, t, e) then 1 else 0)
  {
  }

  /** In every interleaving each failed swap is paid for by another thread's write to the same token count,
      and a thread takes at most three actions in the loop per such write besides the three of an
      undisturbed pass. */
  lemma {:induction false} RetriesArePaidByOthers(l: Limits, s: State, t: nat, es: seq<Event>)
    requires Entered(s, t)
    ensures Actions(l, s, t, es) + Credit(Exec(l, s, es), t) <= Credit(s, t) + 3 * ForeignWrites(l, s, t, es)
    ensures Failures(l, s, t, es) <= (if Stale(s, t) then 1 else 0) + ForeignWrites(l, s, t, es)
    decreases |es|
  {
    if es != [] {
      StepSpends(l, s, t, es[0]);
      RetriesArePaidByOthers(l, Step(l, s, es[0]), t, es[1..]);
    }
  }

  // ----- One refill, two tokens

  /** Tokens and timestamp are swapped separately. Between the two swaps of one thread another one sees the
      new count with the old timestamp and adds the same refill again. Of two threads about to read one bucket
      at the same time, the first leaves `left` tokens; the second is then admitted if and only if those and
      the same refill once more are worth a token, while served after the first it would be admitted if and
      only if `left` alone is. In between, one refill pays twice. (LimiterRate says what keeps whole runs within
      the rate, LimiterOverrun what does not.) */
  lemma OneRefillPaysTwice(l: Limits, s: State, a: nat, b: nat, cell: nat, now: int)
    requires a < |s.threads| && b < |s.threads| && a != b && cell < |s.cells|
    requires s.threads[a].at == ReadStamp(cell, now) && s.threads[b].at == ReadStamp(cell, now)
    requires Level(l, s.cells[cell].bucket, now) >= SCALE
    ensures
      var bucket := s.cells[cell].bucket;
      var left := Level(l, bucket, now) - SCALE;
      var end := Exec(l, s, [Run(a), Run(a), Run(a), Run(b), Run(b), Run(b)]);
      && |end.threads| == |s.threads| && end.threads[a].at.SwapStamp?
      && (end.threads[b].at.SwapStamp? <==> Level(l, bucket.(tokens := left), now) >= SCALE)
      && (end.threads[b].at.Denied? <==> Level(l, bucket.(tokens := left), now) < SCALE)
      && (Allow(l, Allow(l, bucket, now).0, now).1 <==> left >= SCALE)
  {
    var bucket := s.cells[cell].bucket;
    var left := Level(l, bucket, now) - SCALE;
    assert Level(l, Bucket(now, left), now) == left by {
      StandsStill(l, now, left, now);
    }
    hide Step, Level;
    var es, fs := [Run(a), Run(a), Run(a)], [Run(b), Run(b), Run(b)];
    assert es + fs == [Run(a), Run(a), Run(a), Run(b), Run(b), Run(b)];
    ExecConcat(l, s, es, fs);
    UndisturbedPass(l, s, a, cell, now);
    if Level(l, bucket.(tokens := left), now) >= SCALE {
      UndisturbedPass(l, Exec(l, s, es), b, cell, now);
    } else {
      UndisturbedDenial(l, Exec(l, s, es), b, cell, now);
    }
  }

  /** Three actions in a row take a thread that finds less than a token to its denial. */
  lemma UndisturbedDenial(l: Limits, s: State, t: nat, cell: nat, now: int)
    requires t < |s.threads| && cell < |s.cells| && s.threads[t].at == ReadStamp(cell, now)
    requires Level(l, s.cells[cell].bucket, now) < SCALE
    ensures
      Exec(l, s, [Run(t), Run(t), Run(t)]) ==
        s.(blocked := s.blocked + 1, threads := s.threads[t := s.threads[t].(at := Denied(cell))])
  {
    hide Level;
    var es := [Run(t), Run(t), Run(t)];
    var s1 := Peel(l, s, es, 0);
    var s2 := Peel(l, s1, es, 1);
    var s3 := Peel(l, s2, es, 2);
    assert es[0..] == es;
    var th := s.threads[t];
    assert s1.threads == s.threads[t := th.(at := ReadTokens(cell, now, s.cells[cell].bucket.refilled))];
    assert s2.threads == s.threads[t := th.(at := CountBlocked(cell))];
    assert s3.threads == s.threads[t := th.(at := Denied(cell))];
  }

  /** Three actions in a row take a thread from its reading of the timestamp past its swap of the tokens. */
  lemma UndisturbedPass(l: Limits, s: State, t: nat, cell: nat, now: int)
    requires t < |s.threads| && cell < |s.cells| && s.threads[t].at == ReadStamp(cell, now)
    requires Level(l, s.cells[cell].bucket, now) >= SCALE
    ensures
      var bucket := s.cells[cell].bucket;
      Exec(l, s, [Run(t), Run(t), Run(t)]) ==
        SetBucket(s, cell, bucket.(tokens := Level(l, bucket, now) - SCALE))
        .(threads := s.threads[t := s.threads[t].(at := SwapStamp(cell, now, bucket.refilled))])
  {
    hide Level;
    var es := [Run(t), Run(t), Run(t)];
    var s1 := Peel(l, s, es, 0);
    var s2 := Peel(l, s1, es, 1);
    var s3 := Peel(l, s2, es, 2);
    assert es[0..] == es;
    var th := s.threads[t];
    var bucket := s.cells[cell].bucket;
    assert s1.threads == s.threads[t := th.(at := ReadTokens(cell, now, bucket.refilled))];
    assert s2.threads == s.threads[t := th.(at := SwapTokens(cell, now, bucket.refilled, bucket.tokens))];
    assert s3.threads == s.threads[t := th.(at := SwapStamp(cell, now, bucket.refilled))];
  }

  lemma {:induction false} ExecConcat(l: Limits, s: State, es: seq<Event>, fs: seq<Event>)
    ensures Exec(l, s, es + fs) == Exec(l, Exec(l, s, es), fs)
    decreases |es|
  {
    if es == [] {
      assert es + fs == fs;
    } else {
      assert (es + fs)[1..] == es[1..] + fs;
      ExecConcat(l, Step(l, s, es[0]), es[1..], fs);
    }
  }

  lemma Peel(l: Limits, s: State, es: seq<Event>, i: nat) returns (next: State)
    requires i < |es|
    ensures next == Step(l, s, es[i]) && Exec(l, s, es[i..]) == Exec(l, next, es[i + 1..])
  {
    next := Step(l, s, es[i]);
    assert es[i..][1..] == es[i + 1..];
  }
}
