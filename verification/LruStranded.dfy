/** Life after index, count and active prefix have come apart: Get, Set and janitor passes on any standing cache,
    in any order. */
module LruStranded {
  import opened LruModel
  import opened LruRuns
  import opened LruJanitor

  /** What one locked section can do. The index of a disagreeing cache may lead to any node of a key, so a touch
      is of any cell; an entry is a Set of a key that is not indexed. */
  datatype Deed<V> = Touched(i: nat, value: V, now: int) | Entered(key: string, value: V, now: int) | Passed(now: int)

  ghost predicate Possible<V>(c: Cache<V>, deed: Deed<V>) {
    match deed
    case Touched(i, _, _) => i < |c.tape|
    case Entered(key, _, _) => key !in c.index
    case Passed(_) => true
  }

  ghost function Do<V>(c: Cache<V>, idleTimeout: int, deed: Deed<V>): Cache<V>
    requires Standing(c) && Possible(c, deed)
  {
    match deed
    case Touched(i, value, now) => Touch(c, i, Cell(c.tape[i].key, value, now))
    case Entered(key, value, now) =>
      if c.live < c.capacity then Recycle(c, Cell(key, value, now)) else Grow(c, Cell(key, value, now))
    case Passed(now) => Sweep(c, idleTimeout, now)
  }

  lemma StaysStanding<V>(c: Cache<V>, idleTimeout: int, deed: Deed<V>)
    requires Standing(c) && Possible(c, deed)
    ensures Standing(Do(c, idleTimeout, deed))
  {
    match deed
    case Touched(i, value, now) =>
      var cells := c.tape[i := Cell(c.tape[i].key, value, now)];
      FrontElements(cells, i);
      hide Front;
    case Entered(_, _, _) =>
    case Passed(_) =>
  }

  /** On an agreeing cache the deeds are the client operations and the janitor's pass. */
  lemma DeedsAreMoves<V>(c: Cache<V>, idleTimeout: int, move: Move<V>)
    requires Agrees(c)
    ensures Standing(c)
    ensures
      match move
      case Pass(now) => Play(c, idleTimeout, move) == Do(c, idleTimeout, Passed(now))
      case Client(op) =>
        if op.key in c.index then
          var i := Position(c, op.key);
          Play(c, idleTimeout, move) == Do(c, idleTimeout, Touched(i, Written(c, op).value, op.now))
        else if op.SetOp? then Play(c, idleTimeout, move) == Do(c, idleTimeout, Entered(op.key, op.value, op.now))
        else Play(c, idleTimeout, move) == c
  {
  }

  /** Every cell of the key lies below the cursor, where the janitor never looks. */
  ghost predicate Stranded<V>(c: Cache<V>, key: string) {
    key in c.index && forall j :: 0 <= j < |c.tape| && c.tape[j].key == key ==> c.cursor < j
  }

  ghost predicate Touches<V>(c: Cache<V>, deed: Deed<V>, key: string)
    requires Possible(c, deed)
  {
    deed.Touched? && c.tape[deed.i].key == key
  }

  /** The deed gives the tail node away, and it carries the key. */
  ghost predicate Recycles<V>(c: Cache<V>, deed: Deed<V>, key: string) {
    deed.Entered? && c.live < c.capacity && c.tape != [] && c.tape[|c.tape| - 1].key == key
  }

  /** A stranded session that nobody touches is never evicted. It stays stranded, unless a new session takes its
      node: then it leaves the index with no eviction. (The empty key is not even taken out.) */
  lemma StrandedStep<V>(c: Cache<V>, idleTimeout: int, deed: Deed<V>, key: string)
    requires Standing(c) && Possible(c, deed) && Stranded(c, key) && !Touches(c, deed, key)
    ensures deed.Passed? ==> Judge(c, idleTimeout, deed.now) != Evicted(key)
    ensures
      var d := Do(c, idleTimeout, deed);
      if Recycles(c, deed, key) && key != "" then key !in d.index else Stranded(d, key)
  {
    var d := Do(c, idleTimeout, deed);
    match deed
    case Touched(i, value, now) =>
      FrontElements(c.tape[i := Cell(c.tape[i].key, value, now)], i);
    case Entered(_, _, _) =>
      assert forall j :: 0 < j < |d.tape| ==> d.tape[j] == c.tape[j - 1];
    case Passed(now) =>
  }

  /** Every deed of the run is possible where it happens, and none touches the key. */
  ghost predicate Untouched<V>(c: Cache<V>, idleTimeout: int, deeds: seq<Deed<V>>, key: string)
    requires Standing(c)
    decreases |deeds|
  {
    deeds == [] ||
    (Possible(c, deeds[0]) && !Touches(c, deeds[0], key) &&
     (StaysStanding(c, idleTimeout, deeds[0]);
      Untouched(Do(c, idleTimeout, deeds[0]), idleTimeout, deeds[1..], key)))
  }

  /** No pass of the run evicts the key; it is in the index until its node is recycled, if ever, and gone then. */
  ghost predicate NeverEvicted<V>(c: Cache<V>, idleTimeout: int, deeds: seq<Deed<V>>, key: string)
    requires Standing(c) && Untouched(c, idleTimeout, deeds, key)
    decreases |deeds|
  {
    key in c.index &&
    (deeds == [] ||
     (StaysStanding(c, idleTimeout, deeds[0]);
      var d := Do(c, idleTimeout, deeds[0]);
      && (deeds[0].Passed? ==> Judge(c, idleTimeout, deeds[0].now) != Evicted(key))
      && if Recycles(c, deeds[0], key) && key != "" then key !in d.index
         else NeverEvicted(d, idleTimeout, deeds[1..], key)))
  }

  /** Whatever clients and janitor do, a stranded session that nobody touches stays in the index, never evicted,
      until a new session takes its node. */
  lemma {:induction false} StrandedForGood<V>(c: Cache<V>, idleTimeout: int, deeds: seq<Deed<V>>, key: string)
    requires Standing(c) && Stranded(c, key) && Untouched(c, idleTimeout, deeds, key)
    ensures NeverEvicted(c, idleTimeout, deeds, key)
    decreases |deeds|
  {
    if deeds != [] {
      StaysStanding(c, idleTimeout, deeds[0]);
      StrandedStep(c, idleTimeout, deeds[0], key);
      if !Recycles(c, deeds[0], key) || key == "" {
        StrandedForGood(Do(c, idleTimeout, deeds[0]), idleTimeout, deeds[1..], key);
      }
    }
  }

  // ----- Sessions nobody counts

  /** How many more sessions the index holds than the count knows of. */
  ghost function Uncounted<V>(c: Cache<V>): int {
    |c.index| - c.live
  }

  /** The deed drops a session from the index to take its node. */
  ghost predicate Drops<V>(c: Cache<V>, deed: Deed<V>) {
    deed.Entered? && c.live < c.capacity && c.tape != []
    && c.tape[|c.tape| - 1].key != "" && c.tape[|c.tape| - 1].key in c.index
  }

  /** What a deed changes about it: only dropping a session for its node makes up for an uncounted one; an
      eviction never does, and falling asleep leaves everybody counted so far uncounted. */
  ghost function Change<V>(c: Cache<V>, idleTimeout: int, deed: Deed<V>): int
    requires Standing(c)
  {
    match deed
    case Touched(_, _, _) => 0
    case Entered(_, _, _) => if Drops(c, deed) then -1 else 0
    case Passed(now) =>
      match Judge(c, idleTimeout, now)
      case Asleep => c.live
      case Evicted(key) => if key in c.index then 0 else 1
      case Waiting(_) => 0
  }

  lemma SizeWithout(s: set<string>, x: string)
    ensures |s - {x}| == |s| - if x in s then 1 else 0
  {
    if x !in s {
      assert s - {x} == s;
    }
  }

  lemma EnteredChange<V>(c: Cache<V>, cell: Cell<V>)
    requires Standing(c) && cell.key !in c.index
    ensures |Grow(c, cell).index| == |c.index| + 1
    ensures
      var dropped := c.tape[|c.tape| - 1].key;
      |Recycle(c, cell).index| == |c.index| + if dropped != "" && dropped in c.index then 0 else 1
  {
    var dropped := c.tape[|c.tape| - 1].key;
    var rest := if dropped != "" then c.index - {dropped} else c.index;
    SizeWithout(c.index, dropped);
    assert |rest + {cell.key}| == |rest| + 1;
    assert Recycle(c, cell).index == rest + {cell.key};
  }

  lemma EvictedChange<V>(c: Cache<V>)
    requires 0 <= c.cursor < |c.tape| && c.live > 0
    ensures |Evict(c).index| == |c.index| - if c.tape[c.cursor].key in c.index then 1 else 0
  {
    SizeWithout(c.index, c.tape[c.cursor].key);
  }

  lemma UncountedStep<V>(c: Cache<V>, idleTimeout: int, deed: Deed<V>)
    requires Standing(c) && Possible(c, deed)
    ensures Uncounted(Do(c, idleTimeout, deed)) == Uncounted(c) + Change(c, idleTimeout, deed)
  {
    match deed
    case Touched(_, _, _) =>
    case Entered(key, value, now) =>
      EnteredChange(c, Cell(key, value, now));
    case Passed(now) =>
      if Judge(c, idleTimeout, now).Evicted? {
        EvictedChange(c);
      }
  }

  ghost predicate Feasible<V>(c: Cache<V>, idleTimeout: int, deeds: seq<Deed<V>>)
    requires Standing(c)
    decreases |deeds|
  {
    deeds == [] ||
    (Possible(c, deeds[0]) &&
     (StaysStanding(c, idleTimeout, deeds[0]); Feasible(Do(c, idleTimeout, deeds[0]), idleTimeout, deeds[1..])))
  }

  ghost function DoAll<V>(c: Cache<V>, idleTimeout: int, deeds: seq<Deed<V>>): (d: Cache<V>)
    requires Standing(c) && Feasible(c, idleTimeout, deeds)
    ensures Standing(d)
    decreases |deeds|
  {
    if deeds == [] then c
    else
      StaysStanding(c, idleTimeout, deeds[0]);
      DoAll(Do(c, idleTimeout, deeds[0]), idleTimeout, deeds[1..])
  }

  /** How many sessions the run drops from the index to take their nodes. */
  ghost function Dropped<V>(c: Cache<V>, idleTimeout: int, deeds: seq<Deed<V>>): nat
    requires Standing(c) && Feasible(c, idleTimeout, deeds)
    decreases |deeds|
  {
    if deeds == [] then 0
    else
      StaysStanding(c, idleTimeout, deeds[0]);
      (if Drops(c, deeds[0]) then 1 else 0)
      + Dropped(Do(c, idleTimeout, deeds[0]), idleTimeout, deeds[1..])
  }

  /** Over any run, sessions nobody counts become fewer only by being dropped. */
  lemma {:induction false} UncountedStay<V>(c: Cache<V>, idleTimeout: int, deeds: seq<Deed<V>>)
    requires Standing(c) && Feasible(c, idleTimeout, deeds)
    ensures Uncounted(DoAll(c, idleTimeout, deeds)) >= Uncounted(c) - Dropped(c, idleTimeout, deeds)
    decreases |deeds|
  {
    if deeds != [] {
      StaysStanding(c, idleTimeout, deeds[0]);
      UncountedStep(c, idleTimeout, deeds[0]);
      UncountedStay(Do(c, idleTimeout, deeds[0]), idleTimeout, deeds[1..]);
    }
  }

  // ----- How it comes to that

  /** Touching the bottom one of several live sessions leaves the cursor on it at the head. Once it expires, two
      passes evict it and put the janitor to sleep with a count of zero, while all the others are in the index,
      stranded. */
  lemma TouchingTheBottomStrandsTheRest<V>(c: Cache<V>, idleTimeout: int, touched: int, expired: int, later: int)
    requires Ready(c) && c.live >= 2 && expired - touched >= idleTimeout
    ensures
      var bottom := c.tape[c.live - 1].key;
      bottom in c.index &&
      var d := Get(c, bottom, touched);
      && Agrees(d) && d.cursor == 0 && d.tape[0].key == bottom
      && Judge(d, idleTimeout, expired) == Evicted(bottom)
      && var e := Sweep(d, idleTimeout, expired);
      && e.cursor == -1 && Judge(e, idleTimeout, later) == Asleep
      && var f := Sweep(e, idleTimeout, later);
      && f.live == 0 && f.index == c.index - {bottom} && Uncounted(f) == c.live - 1
      && Standing(f) && (forall k :: k in f.index ==> Stranded(f, k))
  {
    var i := c.live - 1;
    PositionUnique(c, i);
    var bottom := c.tape[i].key;
    GetAgrees(c, bottom, touched);
    FrontElements(c.tape[i := c.tape[i].(heartbeat := touched)], i);
    KeysCount(c.tape[..c.live]);
    assert |c.index - {bottom}| == |c.index| - 1;
  }

  /** If a cell off the prefix still remembers a live key when it is reused, that live session is lost from
      the index although its cell stays in the active prefix. */
  lemma RecyclingLosesRevivedKey<V>(c: Cache<V>, key: string, value: V, now: int)
    requires Agrees(c) && key !in c.index && c.live < c.capacity
    ensures
      var revived := c.tape[|c.tape| - 1].key;
      revived != "" && revived in c.index ==>
        var d := Set(c, key, value, now);
        revived !in d.index && exists j :: 0 < j < d.live && d.tape[j].key == revived
  {
    var revived := c.tape[|c.tape| - 1].key;
    if revived != "" && revived in c.index {
      var d := Set(c, key, value, now);
      assert d.tape[Position(c, revived) + 1].key == revived;
    }
  }

  /** A run that gets there: of three nodes, one is given to "a" and expires; "a" comes back on another, "b" takes
      the third, and "c" recycles the first. */
  lemma RevivedKeyIsLost<V>(nothing: V, value: V, idleTimeout: nat) returns (c: Cache<V>)
    ensures
      Agrees(New(3, nothing)) &&
      var c1 := Set(New(3, nothing), "a", value, 0);
      && Agrees(c1) && Judge(c1, idleTimeout, idleTimeout) == Evicted("a")
      && var c2 := Sweep(c1, idleTimeout, idleTimeout);
      && Agrees(c2)
      && var c3 := Set(c2, "a", value, idleTimeout);
      && Agrees(c3)
      && c == Set(c3, "b", value, idleTimeout) && Agrees(c) && Lookup(c, "a") == Some(value)
      && Lookup(c, "c") == None
      && "a" !in Set(c, "c", value, idleTimeout).index && !Agrees(Set(c, "c", value, idleTimeout))
  {
    assert "a" != "b" && "a" != "c" && "b" != "c" && "a" != "" by {
      assert "a"[0] == 'a' && "b"[0] == 'b' && "c"[0] == 'c';
    }
    NewTidy(3, nothing);
    var c0 := New(3, nothing);
    SetAgrees(c0, "a", value, 0);
    var c1 := Set(c0, "a", value, 0);
    assert c1 == Cache(3, [Cell("a", value, 0), c0.tape[0], c0.tape[1]], 1, 0, {"a"});
    SweepAgrees(c1, idleTimeout, idleTimeout);
    var c2 := Sweep(c1, idleTimeout, idleTimeout);
    assert c2 == Cache(3, c1.tape, 0, -1, {});
    SetAgrees(c2, "a", value, idleTimeout);
    var c3 := Set(c2, "a", value, idleTimeout);
    assert c3 == Cache(3, [Cell("a", value, idleTimeout), c1.tape[0], c0.tape[0]], 1, 0, {"a"});
    SetAgrees(c3, "b", value, idleTimeout);
    c := Set(c3, "b", value, idleTimeout);
    assert c == Cache(3, [Cell("b", value, idleTimeout), c3.tape[0], c1.tape[0]], 2, 1, {"a", "b"});
    EntryAt(c, 1);
    SetAgrees(c, "c", value, idleTimeout);
  }
}
