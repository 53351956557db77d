/** What the janitor does to the cache, alone and between Get and Set. */
module LruJanitor {
  import opened Numbers
  import opened LruModel
  import opened LruRuns

  /** Repeating the loop until it would wait or sleep; `clock(i)` is the time of the i-th pass. */
  ghost function Drain<V>(c: Cache<V>, idleTimeout: int, clock: nat -> int, i: nat): (Cache<V>, seq<string>)
    requires Ready(c)
    decreases c.live
  {
    if Judge(c, idleTimeout, clock(i)).Evicted? then
      SweepReady(c, idleTimeout, clock(i));
      var (d, evicted) := Drain(Sweep(c, idleTimeout, clock(i)), idleTimeout, clock, i + 1);
      (d, [c.tape[c.live - 1].key] + evicted)
    else (c, [])
  }

  /** The cursor is at the bottom of the active prefix (nowhere, if that is empty). */
  ghost predicate Ready<V>(c: Cache<V>) {
    Agrees(c) && c.cursor == c.live - 1
  }

  lemma SweepReady<V>(c: Cache<V>, idleTimeout: int, now: int)
    requires Ready(c)
    ensures Ready(Sweep(c, idleTimeout, now))
  {
    SweepAgrees(c, idleTimeout, now);
  }

  /** The evicted keys are those of the bottom cells, bottom first, each expired when its turn came. */
  ghost predicate Victims<V>(cells: seq<Cell<V>>, evicted: seq<string>, idleTimeout: int, clock: nat -> int, i: nat) {
    && |evicted| <= |cells|
    && forall j :: 0 <= j < |evicted| ==>
      var victim := cells[|cells| - 1 - j];
      evicted[j] == victim.key && clock(i + j) - victim.heartbeat >= idleTimeout
  }

  lemma VictimsCons<V>(cells: seq<Cell<V>>, evicted: seq<string>, idleTimeout: int, clock: nat -> int, i: nat)
    requires cells != [] && Victims(cells[..|cells| - 1], evicted, idleTimeout, clock, i + 1)
    requires clock(i) - cells[|cells| - 1].heartbeat >= idleTimeout
    ensures Victims(cells, [cells[|cells| - 1].key] + evicted, idleTimeout, clock, i)
  {
    var all := [cells[|cells| - 1].key] + evicted;
    forall j | 0 <= j < |all|
      ensures all[j] == cells[|cells| - 1 - j].key && clock(i + j) - cells[|cells| - 1 - j].heartbeat >= idleTimeout
    {
      if j > 0 {
        assert all[j] == evicted[j - 1];
        assert clock(i + 1 + (j - 1)) == clock(i + j);
      }
    }
  }

  /** One eviction from the bottom: one session less, and one cell less if more than the capacity are left. */
  lemma SweepShape<V>(c: Cache<V>, idleTimeout: int, now: int)
    requires Ready(c) && Judge(c, idleTimeout, now).Evicted?
    ensures
      var d := Sweep(c, idleTimeout, now);
      && Ready(d) && d.capacity == c.capacity && d.live == c.live - 1
      && Live(d) == Live(c)[..c.live - 1]
      && |d.tape| == |c.tape| - (if d.live > c.capacity then 1 else 0)
  {
    SweepReady(c, idleTimeout, now);
  }

  /** How many evictions, on the way from `before` sessions down to `after`, leave more than the capacity. */
  ghost function Overfull(capacity: nat, before: int, after: int): nat {
    Max(0, before - 1 - Max(capacity, after - 1))
  }

  /** What a drain leaves: the top of the prefix, and one cell less on the tape for each eviction that left
      more sessions than the capacity. */
  lemma {:induction false} DrainShape<V>(c: Cache<V>, idleTimeout: int, clock: nat -> int, i: nat)
    requires Ready(c)
    ensures
      var (d, evicted) := Drain(c, idleTimeout, clock, i);
      && |evicted| <= c.live && Ready(d) && d.capacity == c.capacity && d.live == c.live - |evicted|
      && Live(d) == Live(c)[..c.live - |evicted|]
      && |d.tape| == |c.tape| - Overfull(c.capacity, c.live, d.live)
    decreases c.live
  {
    if Judge(c, idleTimeout, clock(i)).Evicted? {
      hide Sweep, Agrees;
      SweepShape(c, idleTimeout, clock(i));
      DrainShape(Sweep(c, idleTimeout, clock(i)), idleTimeout, clock, i + 1);
    }
  }

  /** A drain that evicts goes on with what the sweep left. */
  lemma DrainGoesOn<V>(c: Cache<V>, idleTimeout: int, clock: nat -> int, i: nat) returns (next: Cache<V>)
    requires Ready(c) && Judge(c, idleTimeout, clock(i)).Evicted?
    ensures next == Sweep(c, idleTimeout, clock(i)) && Ready(next) && 0 <= next.live < c.live
    ensures c.live <= |c.tape| && Live(next) == Live(c)[..c.live - 1]
    ensures
      var (d, rest) := Drain(next, idleTimeout, clock, i + 1);
      Drain(c, idleTimeout, clock, i) == (d, [c.tape[c.live - 1].key] + rest)
  {
    SweepShape(c, idleTimeout, clock(i));
    next := Sweep(c, idleTimeout, clock(i));
  }

  /** A drain that does not evict is over. */
  lemma DrainRests<V>(c: Cache<V>, idleTimeout: int, clock: nat -> int, i: nat)
    requires Ready(c) && !Judge(c, idleTimeout, clock(i)).Evicted?
    ensures Drain(c, idleTimeout, clock, i) == (c, [])
  {
  }

  lemma {:induction false} DrainVictims<V>(c: Cache<V>, idleTimeout: int, clock: nat -> int, i: nat)
    requires Ready(c)
    ensures Victims(Live(c), Drain(c, idleTimeout, clock, i).1, idleTimeout, clock, i)
    decreases c.live
  {
    hide Sweep, Drain, Keys, Distinct;
    if Judge(c, idleTimeout, clock(i)).Evicted? {
      var next := DrainGoesOn(c, idleTimeout, clock, i);
      DrainVictims(next, idleTimeout, clock, i + 1);
      VictimsCons(Live(c), Drain(next, idleTimeout, clock, i + 1).1, idleTimeout, clock, i);
    } else {
      DrainRests(c, idleTimeout, clock, i);
    }
  }

  lemma {:induction false} DrainStops<V>(c: Cache<V>, idleTimeout: int, clock: nat -> int, i: nat)
    requires Ready(c)
    ensures
      var (d, evicted) := Drain(c, idleTimeout, clock, i);
      Ready(d) && !Judge(d, idleTimeout, clock(i + |evicted|)).Evicted?
    decreases c.live
  {
    hide Sweep, Drain, Keys, Distinct;
    if Judge(c, idleTimeout, clock(i)).Evicted? {
      var next := DrainGoesOn(c, idleTimeout, clock, i);
      DrainStops(next, idleTimeout, clock, i + 1);
      assert i + |Drain(c, idleTimeout, clock, i).1| == i + 1 + |Drain(next, idleTimeout, clock, i + 1).1|;
    } else {
      DrainRests(c, idleTimeout, clock, i);
    }
  }

  /** A drain evicts a bottom suffix of the recency order, bottom first. Every victim was expired when its
      turn came, and the loop stops at a survivor that is not. */
  lemma DrainEvictsBottom<V>(c: Cache<V>, idleTimeout: int, clock: nat -> int, i: nat)
    requires Ready(c)
    ensures
      var (d, evicted) := Drain(c, idleTimeout, clock, i);
      && Ready(d) && |evicted| <= c.live && Live(d) == Live(c)[..c.live - |evicted|]
      && Victims(Live(c), evicted, idleTimeout, clock, i)
      && (d.live > 0 ==> clock(i + |evicted|) - Live(d)[d.live - 1].heartbeat < idleTimeout)
  {
    hide Drain, Victims;
    DrainShape(c, idleTimeout, clock, i);
    DrainVictims(c, idleTimeout, clock, i);
    DrainStops(c, idleTimeout, clock, i);
  }

  /** Draining from c, after `evicted`, completes the drain from `start`. */
  ghost predicate Continues<V>(start: Cache<V>, c: Cache<V>, evicted: seq<string>, idleTimeout: int, clock: nat -> int)
    requires Ready(start) && Ready(c)
  {
    var (d, rest) := Drain(c, idleTimeout, clock, |evicted|);
    Drain(start, idleTimeout, clock, 0) == (d, evicted + rest)
  }

  lemma DrainBegins<V>(c: Cache<V>, idleTimeout: int, clock: nat -> int)
    requires Ready(c)
    ensures Continues(c, c, [], idleTimeout, clock)
  {
    var (d, rest) := Drain(c, idleTimeout, clock, 0);
    assert [] + rest == rest;
  }

  /** An evicting pass continues the drain. */
  lemma {:induction false} DrainProceeds<V>(start: Cache<V>, c: Cache<V>, evicted: seq<string>, idleTimeout: int,
                                            clock: nat -> int)
    requires Ready(start) && Ready(c) && Continues(start, c, evicted, idleTimeout, clock)
    requires Judge(c, idleTimeout, clock(|evicted|)).Evicted?
    ensures
      var swept := Sweep(c, idleTimeout, clock(|evicted|));
      Ready(swept) && Continues(start, swept, evicted + [c.tape[c.cursor].key], idleTimeout, clock)
  {
    var swept := Sweep(c, idleTimeout, clock(|evicted|));
    var key := c.tape[c.cursor].key;
    SweepReady(c, idleTimeout, clock(|evicted|));
    var more := evicted + [key];
    var (d, rest) := Drain(swept, idleTimeout, clock, |more|);
    assert Drain(c, idleTimeout, clock, |evicted|) == (d, [key] + rest);
    Regroup(evicted, key, rest);
  }

  lemma Regroup(s: seq<string>, key: string, t: seq<string>)
    ensures s + ([key] + t) == s + [key] + t
  {
  }

  /** Any other pass ends it. */
  lemma {:induction false} DrainEnds<V>(start: Cache<V>, c: Cache<V>, evicted: seq<string>, idleTimeout: int,
                                        clock: nat -> int)
    requires Ready(start) && Ready(c) && Continues(start, c, evicted, idleTimeout, clock)
    requires !Judge(c, idleTimeout, clock(|evicted|)).Evicted?
    ensures Sweep(c, idleTimeout, clock(|evicted|)) == c
    ensures Drain(start, idleTimeout, clock, 0) == (c, evicted)
  {
    assert evicted + [] == evicted;
  }

  /** With heartbeats in recency order nobody who survives a drain is expired when it stops. */
  lemma DrainLeavesUnexpired<V>(c: Cache<V>, idleTimeout: int, clock: nat -> int)
    requires Ready(c) && Sorted(c)
    ensures
      var (d, evicted) := Drain(c, idleTimeout, clock, 0);
      Ready(d) && forall j :: 0 <= j < |Live(d)| ==> clock(|evicted|) - Live(d)[j].heartbeat < idleTimeout
  {
    hide Drain, Victims;
    DrainEvictsBottom(c, idleTimeout, clock, 0);
    var (d, evicted) := Drain(c, idleTimeout, clock, 0);
    assert Descending(Live(d));
    forall j | 0 <= j < |Live(d)|
      ensures clock(|evicted|) - Live(d)[j].heartbeat < idleTimeout
    {
      assert Live(d)[d.live - 1].heartbeat <= Live(d)[j].heartbeat;
    }
  }

  /** After an overload that filled the tape beyond capacity, a drain of m sessions leaves exactly
      max(L - m, capacity + 1) cells of L: the cut is decided after the count went down. */
  lemma DrainShrinksExactly<V>(c: Cache<V>, idleTimeout: int, clock: nat -> int)
    requires Ready(c) && |c.tape| == c.live > c.capacity
    ensures
      var (d, evicted) := Drain(c, idleTimeout, clock, 0);
      |d.tape| == Max(|c.tape| - |evicted|, c.capacity + 1)
  {
    DrainShape(c, idleTimeout, clock, 0);
  }

  // ----- Get, Set and the janitor in any order

  datatype Move<V> = Client(op: Op<V>) | Pass(now: int)

  ghost function Play<V>(c: Cache<V>, idleTimeout: int, move: Move<V>): Cache<V>
    requires Agrees(c)
  {
    match move
    case Client(op) => Apply(c, op)
    case Pass(now) => Sweep(c, idleTimeout, now)
  }

  /** Ready, and no cell off the active prefix remembers a live key. */
  ghost predicate Orderly<V>(c: Cache<V>) {
    Ready(c) && forall j :: c.live <= j < |c.tape| ==> c.tape[j].key == "" || c.tape[j].key !in c.index
  }

  /** A client may touch any live key but the bottom one of several, and may Set a new key unless some cell
      off the prefix (other than one about to be reused) still remembers it. */
  ghost predicate Allowed<V>(c: Cache<V>, op: Op<V>)
    requires Ready(c)
  {
    if op.key in c.index then Position(c, op.key) != c.live - 1 || c.live == 1
    else if op.GetOp? then true
    else
      var end := if c.live < c.capacity then |c.tape| - 1 else |c.tape|;
      forall j :: c.live <= j < end ==> c.tape[j].key == "" || c.tape[j].key != op.key
  }

  /** Exactly the allowed client operations keep the cache orderly; the janitor always does. */
  lemma OrderlyIffAllowed<V>(c: Cache<V>, idleTimeout: int, move: Move<V>)
    requires Orderly(c)
    ensures Orderly(Play(c, idleTimeout, move)) <==> (move.Client? ==> Allowed(c, move.op))
  {
    match move
    case Pass(now) => PassKeepsOrderly(c, idleTimeout, now);
    case Client(op) =>
      if op.key in c.index {
        TouchKeepsOrderlyIff(c, op);
      } else if op.SetOp? {
        SetKeepsOrderlyIff(c, op);
      }
  }

  lemma PassKeepsOrderly<V>(c: Cache<V>, idleTimeout: int, now: int)
    requires Orderly(c)
    ensures Orderly(Sweep(c, idleTimeout, now))
  {
    SweepReady(c, idleTimeout, now);
  }

  lemma TouchKeepsOrderlyIff<V>(c: Cache<V>, op: Op<V>)
    requires Orderly(c) && op.key in c.index
    ensures Orderly(Apply(c, op)) <==> Allowed(c, op)
  {
    var i := Position(c, op.key);
    if op.GetOp? {
      GetAgrees(c, op.key, op.now);
    } else {
      SetAgrees(c, op.key, op.value, op.now);
    }
    FrontElements(c.tape[i := Apply(c, op).tape[0]], i);
  }

  lemma SetKeepsOrderlyIff<V>(c: Cache<V>, op: Op<V>)
    requires Orderly(c) && op.key !in c.index && op.SetOp?
    ensures Orderly(Apply(c, op)) <==> Allowed(c, op)
  {
    SetAgrees(c, op.key, op.value, op.now);
    var d := Apply(c, op);
    assert d.index == c.index + {op.key};
    assert forall j :: 0 < j < |d.tape| ==> d.tape[j] == c.tape[j - 1];
    if !Allowed(c, op) {
      var end := if c.live < c.capacity then |c.tape| - 1 else |c.tape|;
      var j :| c.live <= j < end && c.tape[j].key != "" && c.tape[j].key == op.key;
      assert d.tape[j + 1].key in d.index;
    }
  }

  ghost function PlayAll<V>(c: Cache<V>, idleTimeout: int, moves: seq<Move<V>>): Cache<V>
    requires Orderly(c) && AllAllowed(c, idleTimeout, moves)
    decreases |moves|
  {
    if moves == [] then c
    else
      OrderlyIffAllowed(c, idleTimeout, moves[0]);
      PlayAll(Play(c, idleTimeout, moves[0]), idleTimeout, moves[1..])
  }

  ghost predicate AllAllowed<V>(c: Cache<V>, idleTimeout: int, moves: seq<Move<V>>)
    requires Orderly(c)
    decreases |moves|
  {
    moves == [] ||
    ((moves[0].Client? ==> Allowed(c, moves[0].op)) &&
     (OrderlyIffAllowed(c, idleTimeout, moves[0]);
      AllAllowed(Play(c, idleTimeout, moves[0]), idleTimeout, moves[1..])))
  }

  /** Clients and janitor interleaved in any order, from any orderly cache (an empty one is): as long as every
      client operation is allowed where it happens, the cache stays orderly. */
  lemma {:induction false} InterleavedRunStaysOrderly<V>(c: Cache<V>, idleTimeout: int, moves: seq<Move<V>>)
    requires Orderly(c) && AllAllowed(c, idleTimeout, moves)
    ensures Orderly(PlayAll(c, idleTimeout, moves))
    decreases |moves|
  {
    if moves != [] {
      OrderlyIffAllowed(c, idleTimeout, moves[0]);
      InterleavedRunStaysOrderly(Play(c, idleTimeout, moves[0]), idleTimeout, moves[1..]);
    }
  }

  lemma NewIsOrderly<V>(capacity: nat, nothing: V)
    requires capacity >= 2
    ensures Orderly(New(capacity, nothing))
  {
    NewTidy(capacity, nothing);
  }

  /** From an empty cache on, allowed operations and janitor passes in any order keep the index as large as the
      count and the cursor at the bottom of the active prefix. */
  lemma AllowedRunsStayOrderly<V>(capacity: nat, nothing: V, idleTimeout: int, moves: seq<Move<V>>)
    requires capacity >= 2
    requires Orderly(New(capacity, nothing)) ==> AllAllowed(New(capacity, nothing), idleTimeout, moves)
    ensures
      Orderly(New(capacity, nothing)) &&
      var c := PlayAll(New(capacity, nothing), idleTimeout, moves);
      Orderly(c) && |c.index| == c.live == c.cursor + 1
  {
    NewIsOrderly(capacity, nothing);
    InterleavedRunStaysOrderly(New(capacity, nothing), idleTimeout, moves);
    CountIsIndexSize(PlayAll(New(capacity, nothing), idleTimeout, moves));
  }

  lemma {:induction false} KeysCount<V>(cells: seq<Cell<V>>)
    requires Distinct(cells)
    ensures |Keys(cells)| == |cells|
  {
    if cells != [] {
      var rest := cells[1..];
      KeysCount(rest);
      assert cells == [cells[0]] + rest;
      ConsKeys(cells[0], rest);
      assert forall j :: 0 <= j < |rest| ==> rest[j] == cells[j + 1];
    }
  }

  /** Index, count and prefix have the same size whenever they agree. */
  lemma CountIsIndexSize<V>(c: Cache<V>)
    requires Agrees(c)
    ensures |c.index| == c.live
  {
    KeysCount(c.tape[..c.live]);
  }

  /** One new session on a full cache, then one eviction. */
  datatype Round<V> = Round(key: string, value: V, now: int, evictedAt: int)

  ghost predicate Applies<V>(c: Cache<V>, idleTimeout: int, r: Round<V>) {
    && Ready(c) && c.live == c.capacity && r.key !in c.index
    && r.evictedAt - c.tape[c.live - 1].heartbeat >= idleTimeout
  }

  ghost function PlayRound<V>(c: Cache<V>, idleTimeout: int, r: Round<V>): (d: Cache<V>)
    requires Applies(c, idleTimeout, r)
    ensures Ready(d) && d.live == c.live && d.capacity == c.capacity && |d.tape| == |c.tape| + 1
  {
    GrowAgrees(c, Cell(r.key, r.value, r.now));
    var grown := Set(c, r.key, r.value, r.now);
    SweepReady(grown, idleTimeout, r.evictedAt);
    Sweep(grown, idleTimeout, r.evictedAt)
  }

  ghost predicate AllApply<V>(c: Cache<V>, idleTimeout: int, rounds: seq<Round<V>>)
    decreases |rounds|
  {
    rounds == [] ||
    (Applies(c, idleTimeout, rounds[0]) && AllApply(PlayRound(c, idleTimeout, rounds[0]), idleTimeout, rounds[1..]))
  }

  ghost function PlayRounds<V>(c: Cache<V>, idleTimeout: int, rounds: seq<Round<V>>): Cache<V>
    requires AllApply(c, idleTimeout, rounds)
    decreases |rounds|
  {
    if rounds == [] then c
    else PlayRounds(PlayRound(c, idleTimeout, rounds[0]), idleTimeout, rounds[1..])
  }

  /** A full cache that keeps admitting one session and evicting one is never more than one session over its
      capacity, yet its tape grows by one cell every round: the eviction back to capacity cuts nothing. */
  lemma {:induction false} TapeGrowsEveryRound<V>(c: Cache<V>, idleTimeout: int, rounds: seq<Round<V>>)
    requires AllApply(c, idleTimeout, rounds)
    ensures
      var d := PlayRounds(c, idleTimeout, rounds);
      d.live == c.live && |d.tape| == |c.tape| + |rounds|
    decreases |rounds|
  {
    if rounds != [] {
      TapeGrowsEveryRound(PlayRound(c, idleTimeout, rounds[0]), idleTimeout, rounds[1..]);
    }
  }

  /** Such rounds can always go on: the key the last one evicted is free for the next. */
  lemma {:induction false} RoundsGoOn<V>(c: Cache<V>, idleTimeout: int, value: V, now: int, spare: string, n: nat)
    returns (rounds: seq<Round<V>>)
    requires Ready(c) && c.live == c.capacity && spare !in c.index
    ensures |rounds| == n && AllApply(c, idleTimeout, rounds)
    decreases n
  {
    if n == 0 {
      rounds := [];
    } else {
      var bottom := c.tape[c.live - 1];
      var round := Round(spare, value, now, bottom.heartbeat + idleTimeout);
      PositionUnique(c, c.live - 1);
      var next := PlayRound(c, idleTimeout, round);
      assert next.index == c.index + {spare} - {bottom.key};
      var rest := RoundsGoOn(next, idleTimeout, value, now, bottom.key, n - 1);
      rounds := [round] + rest;
      assert rounds[1..] == rest;
    }
  }

  /** However long the tape should get, two sessions and enough rounds make it that long. */
  lemma TapeGrowsWithoutBound<V>(nothing: V, value: V, idleTimeout: int, n: nat) returns (rounds: seq<Round<V>>)
    ensures
      Agrees(New(2, nothing)) &&
      var c := Set(New(2, nothing), "a", value, 0);
      && Agrees(c)
      && var d := Set(c, "b", value, 0);
      && AllApply(d, idleTimeout, rounds)
      && PlayRounds(d, idleTimeout, rounds).live == 2 && |PlayRounds(d, idleTimeout, rounds).tape| == 2 + n
  {
    NewTidy(2, nothing);
    var c := Set(New(2, nothing), "a", value, 0);
    SetAgrees(New(2, nothing), "a", value, 0);
    SetAgrees(c, "b", value, 0);
    var d := Set(c, "b", value, 0);
    assert "a" != "b" && "a" != "c" && "b" != "c" by {
      assert "a"[0] == 'a' && "b"[0] == 'b' && "c"[0] == 'c';
    }
    rounds := RoundsGoOn(d, idleTimeout, value, 0, "c", n);
    TapeGrowsEveryRound(d, idleTimeout, rounds);
  }
}
