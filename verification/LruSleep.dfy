/** How long the janitor sleeps: not a moment less or more than the session at its cursor has left. */
module LruSleep {
  import opened LruModel
  import opened LruStranded

  /** The verdict of a pass, in figures. */
  lemma JudgeInFigures<V>(c: Cache<V>, idleTimeout: int, now: int)
    requires c.cursor < |c.tape|
    ensures Judge(c, idleTimeout, now) ==
      if c.live == 0 || c.cursor < 0 then Asleep
      else if c.tape[c.cursor].heartbeat + idleTimeout <= now then Evicted(c.tape[c.cursor].key)
      else Waiting(c.tape[c.cursor].heartbeat + idleTimeout - now)
  {
  }

  /** Told to wait, the next pass evicts the session at the cursor if and only if that time is up. */
  lemma WaitsUntilExpiry<V>(c: Cache<V>, idleTimeout: int, now: int, later: nat)
    requires c.cursor < |c.tape| && Judge(c, idleTimeout, now).Waiting?
    ensures
      var w := Judge(c, idleTimeout, now).duration;
      w > 0 && Judge(c, idleTimeout, now + later) ==
        if later >= w then Evicted(c.tape[c.cursor].key) else Waiting(w - later)
  {
  }

  /** A client operation that neither touches the session at the cursor nor takes its node. */
  ghost predicate Spares<V>(c: Cache<V>, deed: Deed<V>) {
    match deed
    case Touched(i, _, _) => i != c.cursor
    case Entered(_, _, _) => c.live < c.capacity ==> c.cursor != |c.tape| - 1
    case Passed(_) => false
  }

  ghost predicate SparingRun<V>(c: Cache<V>, idleTimeout: int, deeds: seq<Deed<V>>)
    requires Standing(c)
    decreases |deeds|
  {
    deeds == [] ||
    (Possible(c, deeds[0]) && Spares(c, deeds[0]) &&
     (StaysStanding(c, idleTimeout, deeds[0]); SparingRun(Do(c, idleTimeout, deeds[0]), idleTimeout, deeds[1..])))
  }

  lemma {:induction false} SparingIsFeasible<V>(c: Cache<V>, idleTimeout: int, deeds: seq<Deed<V>>)
    requires Standing(c) && SparingRun(c, idleTimeout, deeds)
    ensures Feasible(c, idleTimeout, deeds)
    decreases |deeds|
  {
    if deeds != [] {
      StaysStanding(c, idleTimeout, deeds[0]);
      SparingIsFeasible(Do(c, idleTimeout, deeds[0]), idleTimeout, deeds[1..]);
    }
  }

  lemma SparedStays<V>(c: Cache<V>, idleTimeout: int, deed: Deed<V>)
    requires Standing(c) && Possible(c, deed) && Spares(c, deed) && c.live > 0 && c.cursor >= 0
    ensures
      var d := Do(c, idleTimeout, deed);
      d.live > 0 && 0 <= d.cursor < |d.tape| && d.tape[d.cursor] == c.tape[c.cursor]
  {
    match deed
    case Touched(i, value, now) =>
      SlideLands(c.tape[i := Cell(c.tape[i].key, value, now)], i, c.cursor);
    case Entered(_, _, _) =>
  }

  lemma {:induction false} SparedStaysAllAlong<V>(c: Cache<V>, idleTimeout: int, deeds: seq<Deed<V>>)
    requires Standing(c) && SparingRun(c, idleTimeout, deeds) && c.live > 0 && c.cursor >= 0
    ensures Feasible(c, idleTimeout, deeds)
    ensures
      var d := DoAll(c, idleTimeout, deeds);
      d.live > 0 && 0 <= d.cursor < |d.tape| && d.tape[d.cursor] == c.tape[c.cursor]
    decreases |deeds|
  {
    SparingIsFeasible(c, idleTimeout, deeds);
    if deeds != [] {
      StaysStanding(c, idleTimeout, deeds[0]);
      SparedStays(c, idleTimeout, deeds[0]);
      SparedStaysAllAlong(Do(c, idleTimeout, deeds[0]), idleTimeout, deeds[1..]);
    }
  }

  /** Whatever clients do while the janitor sleeps, as long as they leave the session at the cursor alone, the
      pass after the sleep evicts it, and one before would have had to wait. */
  lemma SleepEndsAtExpiry<V>(c: Cache<V>, idleTimeout: int, now: int, deeds: seq<Deed<V>>, later: nat)
    requires Standing(c) && Judge(c, idleTimeout, now).Waiting? && SparingRun(c, idleTimeout, deeds)
    ensures Feasible(c, idleTimeout, deeds)
    ensures
      var w := Judge(c, idleTimeout, now).duration;
      Judge(DoAll(c, idleTimeout, deeds), idleTimeout, now + later) ==
        if later >= w then Evicted(c.tape[c.cursor].key) else Waiting(w - later)
  {
    SparedStaysAllAlong(c, idleTimeout, deeds);
  }
}
