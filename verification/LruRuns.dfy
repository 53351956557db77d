/** Runs of Get and Set, of any length and past capacity: the cache is a plain map with a recency order. */
module LruRuns {
  import opened LruModel

  datatype Op<V> = GetOp(key: string, now: int) | SetOp(key: string, value: V, now: int)

  ghost function Apply<V>(c: Cache<V>, op: Op<V>): Cache<V>
    requires Agrees(c)
  {
    match op
    case GetOp(key, now) => Get(c, key, now)
    case SetOp(key, value, now) => Set(c, key, value, now)
  }

  /** The tape is as long as the larger of capacity and count, and cells that are not live were never used. */
  ghost predicate Tidy<V>(c: Cache<V>) {
    && Agrees(c)
    && |c.tape| == (if c.live < c.capacity then c.capacity else c.live)
    && (forall i :: c.live <= i < |c.tape| ==> c.tape[i].key == "")
  }

  lemma ApplyTidy<V>(c: Cache<V>, op: Op<V>)
    requires Tidy(c)
    ensures Tidy(Apply(c, op))
  {
    match op
    case GetOp(key, now) =>
      GetAgrees(c, key, now);
    case SetOp(key, value, now) =>
      SetAgrees(c, key, value, now);
  }

  /** The cache after the operations, started empty. */
  ghost function Run<V>(capacity: nat, nothing: V, ops: seq<Op<V>>): (c: Cache<V>)
    requires capacity >= 2
    ensures Tidy(c) && c.capacity == capacity
  {
    if ops == [] then
      NewTidy(capacity, nothing);
      New(capacity, nothing)
    else
      var c := Run(capacity, nothing, ops[..|ops| - 1]);
      var op := ops[|ops| - 1];
      ApplyTidy(c, op);
      Apply(c, op)
  }

  lemma NewTidy<V>(capacity: nat, nothing: V)
    requires capacity >= 2
    ensures Tidy(New(capacity, nothing))
  {
    assert New(capacity, nothing).tape[..0] == [];
  }

  /** The value last Set for a key, if it was ever Set. */
  ghost function LastSet<V>(ops: seq<Op<V>>, key: string): Option<V> {
    if ops == [] then None
    else
      var op := ops[|ops| - 1];
      if op.SetOp? && op.key == key then Some(op.value) else LastSet(ops[..|ops| - 1], key)
  }

  ghost function Without(s: seq<string>, key: string): seq<string> {
    if s == [] then [] else (if s[0] == key then [] else [s[0]]) + Without(s[1..], key)
  }

  /** The keys ever Set, last touched first; a Get touches a key that was Set. */
  ghost function Recent<V>(ops: seq<Op<V>>): seq<string> {
    if ops == [] then []
    else
      var before := Recent(ops[..|ops| - 1]);
      var op := ops[|ops| - 1];
      if op.SetOp? || op.key in before then [op.key] + Without(before, op.key) else before
  }

  /** The active prefix. */
  function Live<V>(c: Cache<V>): seq<Cell<V>>
    requires c.live <= |c.tape|
  {
    c.tape[..c.live]
  }

  ghost function KeyList<V>(cells: seq<Cell<V>>): seq<string> {
    seq(|cells|, i requires 0 <= i < |cells| => cells[i].key)
  }

  ghost function Order<V>(c: Cache<V>): seq<string>
    requires c.live <= |c.tape|
  {
    KeyList(Live(c))
  }

  /** The cell an operation leaves at the head. */
  ghost function Written<V>(c: Cache<V>, op: Op<V>): Cell<V>
    requires Agrees(c) && (op.SetOp? || op.key in c.index)
  {
    match op
    case SetOp(key, value, now) => Cell(key, value, now)
    case GetOp(key, now) => c.tape[Position(c, key)].(heartbeat := now)
  }

  /** An operation on a live key brings its cell to the front of the prefix. */
  lemma TouchPrefix<V>(c: Cache<V>, op: Op<V>)
    requires Agrees(c) && op.key in c.index
    ensures
      var d := Apply(c, op);
      && d.live == c.live <= |d.tape| && d.index == c.index
      && Live(d) == Front(Live(c)[Position(c, op.key) := Written(c, op)], Position(c, op.key))
  {
  }

  /** A new key extends the prefix at the front. */
  lemma NewPrefix<V>(c: Cache<V>, op: Op<V>)
    requires Tidy(c) && op.SetOp? && op.key !in c.index
    ensures
      var d := Apply(c, op);
      d.live == c.live + 1 <= |d.tape| && Live(d) == [Written(c, op)] + Live(c) && d.index == c.index + {op.key}
  {
  }

  lemma {:induction false} WithoutAbsent(s: seq<string>, key: string)
    requires key !in s
    ensures Without(s, key) == s
  {
    if s != [] {
      WithoutAbsent(s[1..], key);
    }
  }

  lemma {:induction false} WithoutOnce(front: seq<string>, key: string, back: seq<string>)
    requires key !in front && key !in back
    ensures Without(front + [key] + back, key) == front + back
  {
    var s := front + [key] + back;
    if front == [] {
      assert s[1..] == back;
      WithoutAbsent(back, key);
      assert front + back == back;
    } else {
      assert s[1..] == front[1..] + [key] + back;
      WithoutOnce(front[1..], key, back);
      assert front + back == [front[0]] + (front[1..] + back);
    }
  }

  lemma KeyListFront<V>(cells: seq<Cell<V>>, cell: Cell<V>, i: nat)
    requires i < |cells| && cell.key == cells[i].key && Distinct(cells)
    ensures KeyList(Front(cells[i := cell], i)) == [cell.key] + Without(KeyList(cells), cell.key)
  {
    var keys := KeyList(cells);
    var front, back := keys[..i], keys[i + 1..];
    assert keys == front + [cell.key] + back;
    WithoutOnce(front, cell.key, back);
    var moved := Front(cells[i := cell], i);
    FrontElements(cells[i := cell], i);
    assert KeyList(moved) == [cell.key] + (front + back);
  }

  /** Each operation brings the touched key to the front of the order and leaves the rest in place. */
  lemma ApplyOrder<V>(c: Cache<V>, op: Op<V>)
    requires Tidy(c) && Tidy(Apply(c, op))
    ensures
      var order := Order(c);
      Order(Apply(c, op)) ==
        if op.SetOp? || op.key in order then [op.key] + Without(order, op.key) else order
  {
    var order := Order(c);
    InOrder(c, op.key);
    if op.key in c.index {
      TouchPrefix(c, op);
      KeyListFront(Live(c), Written(c, op), Position(c, op.key));
    } else if op.SetOp? {
      NewPrefix(c, op);
      WithoutAbsent(order, op.key);
      assert KeyList([Written(c, op)] + Live(c)) == [op.key] + order;
    }
  }

  lemma InOrder<V>(c: Cache<V>, key: string)
    requires Agrees(c)
    ensures key in Order(c) <==> key in c.index
  {
    if key in c.index {
      assert Order(c)[Position(c, key)] == key;
    }
    if i :| 0 <= i < c.live && Order(c)[i] == key {
      PositionUnique(c, i);
    }
  }

  /** The live cell of a key. */
  ghost function Entry<V>(c: Cache<V>, key: string): Option<Cell<V>>
    requires Agrees(c)
  {
    if key in c.index then Some(c.tape[Position(c, key)]) else None
  }

  lemma EntryAt<V>(c: Cache<V>, i: nat)
    requires Agrees(c) && i < c.live
    ensures Entry(c, Live(c)[i].key) == Some(Live(c)[i])
  {
    PositionUnique(c, i);
  }

  /** Each operation writes the cell of the key it touches and no other. */
  lemma ApplyEntry<V>(c: Cache<V>, op: Op<V>, key: string)
    requires Tidy(c) && Tidy(Apply(c, op))
    ensures
      Entry(Apply(c, op), key) ==
        if op.key == key && (op.SetOp? || key in c.index) then Some(Written(c, op)) else Entry(c, key)
  {
    if op.key in c.index {
      TouchPrefix(c, op);
      TouchEntry(c, op, key);
    } else if op.SetOp? {
      NewPrefix(c, op);
      var d := Apply(c, op);
      EntryAt(d, 0);
      if key in c.index {
        var j := Position(c, key);
        EntryAt(c, j);
        EntryAt(d, j + 1);
        assert Live(d)[j + 1] == Live(c)[j];
      }
    }
  }

  lemma TouchEntry<V>(c: Cache<V>, op: Op<V>, key: string)
    requires Agrees(c) && Agrees(Apply(c, op)) && op.key in c.index
    requires Apply(c, op).index == c.index
    requires Live(Apply(c, op)) == Front(Live(c)[Position(c, op.key) := Written(c, op)], Position(c, op.key))
    ensures Entry(Apply(c, op), key) == if op.key == key then Some(Written(c, op)) else Entry(c, key)
  {
    var d := Apply(c, op);
    var i := Position(c, op.key);
    if key == op.key {
      EntryAt(d, 0);
      EntryAt(c, i);
    } else if key in c.index {
      var j := Position(c, key);
      SlideLands(Live(c)[i := Written(c, op)], i, j);
      EntryAt(d, Slide(j, i));
      EntryAt(c, j);
    }
  }

  /** Each operation changes the value of the key it Sets and of no other. */
  lemma ApplyLookup<V>(c: Cache<V>, op: Op<V>, key: string)
    requires Tidy(c) && Tidy(Apply(c, op))
    ensures Lookup(Apply(c, op), key) == if op.SetOp? && op.key == key then Some(op.value) else Lookup(c, key)
  {
    ApplyEntry(c, op, key);
  }

  /** A cache of any size behaves as a plain map with a recency order: a key is found exactly if it was ever
      Set, with the value last Set for it, and the active prefix lists the keys by last touch. */
  lemma {:induction false} CacheIsMapWithRecency<V>(capacity: nat, nothing: V, ops: seq<Op<V>>)
    requires capacity >= 2
    ensures
      var c := Run(capacity, nothing, ops);
      && (forall key :: Lookup(c, key) == LastSet(ops, key))
      && Order(c) == Recent(ops)
    decreases |ops|
  {
    var c := Run(capacity, nothing, ops);
    if ops == [] {
      assert Order(c) == [];
    } else {
      var before := ops[..|ops| - 1];
      var b := Run(capacity, nothing, before);
      CacheIsMapWithRecency(capacity, nothing, before);
      ApplyOrder(b, ops[|ops| - 1]);
      forall key
        ensures Lookup(c, key) == LastSet(ops, key)
      {
        ApplyLookup(b, ops[|ops| - 1], key);
      }
    }
  }

  /** When a key that was Set was last touched, by a Set or a Get. */
  ghost function LastTouch<V>(ops: seq<Op<V>>, key: string): Option<int> {
    if ops == [] then None
    else
      var before, op := ops[..|ops| - 1], ops[|ops| - 1];
      if op.key == key && (op.SetOp? || LastSet(before, key).Some?) then Some(op.now) else LastTouch(before, key)
  }

  /** The heartbeat of every live session is the time of its last touch. */
  lemma {:induction false} HeartbeatIsLastTouch<V>(capacity: nat, nothing: V, ops: seq<Op<V>>, key: string)
    requires capacity >= 2
    ensures
      var c := Run(capacity, nothing, ops);
      LastTouch(ops, key) == if key in c.index then Some(c.tape[Position(c, key)].heartbeat) else None
    decreases |ops|
  {
    if ops != [] {
      var before, op := ops[..|ops| - 1], ops[|ops| - 1];
      var b := Run(capacity, nothing, before);
      HeartbeatIsLastTouch(capacity, nothing, before, key);
      CacheIsMapWithRecency(capacity, nothing, before);
      assert Lookup(b, key) == LastSet(before, key);
      ApplyTidy(b, op);
      ApplyEntry(b, op, key);
    }
  }

  ghost predicate Monotone<V>(ops: seq<Op<V>>) {
    forall i, j :: 0 <= i < j < |ops| ==> ops[i].now <= ops[j].now
  }

  ghost predicate Descending<V>(cells: seq<Cell<V>>) {
    forall i, j :: 0 <= i < j < |cells| ==> cells[i].heartbeat >= cells[j].heartbeat
  }

  ghost predicate Sorted<V>(c: Cache<V>)
    requires c.live <= |c.tape|
  {
    Descending(Live(c))
  }

  ghost predicate NoLaterThan<V>(cells: seq<Cell<V>>, now: int) {
    forall i :: 0 <= i < |cells| ==> cells[i].heartbeat <= now
  }

  lemma FrontSorted<V>(cells: seq<Cell<V>>, cell: Cell<V>, i: nat)
    requires i < |cells| && Descending(cells) && NoLaterThan(cells, cell.heartbeat)
    ensures Descending(Front(cells[i := cell], i)) && NoLaterThan(Front(cells[i := cell], i), cell.heartbeat)
  {
    FrontElements(cells[i := cell], i);
  }

  lemma ApplySorted<V>(c: Cache<V>, op: Op<V>)
    requires Tidy(c) && Tidy(Apply(c, op)) && Sorted(c) && NoLaterThan(Live(c), op.now)
    ensures Sorted(Apply(c, op)) && NoLaterThan(Live(Apply(c, op)), op.now)
  {
    if op.key in c.index {
      TouchPrefix(c, op);
      FrontSorted(Live(c), Written(c, op), Position(c, op.key));
    } else if op.SetOp? {
      NewPrefix(c, op);
    }
  }

  /** With a clock that does not run backwards the active prefix is sorted by heartbeat. */
  lemma {:induction false} HeartbeatsNonIncreasing<V>(capacity: nat, nothing: V, ops: seq<Op<V>>)
    requires capacity >= 2 && Monotone(ops)
    ensures
      var c := Run(capacity, nothing, ops);
      && Sorted(c)
      && (ops != [] ==> NoLaterThan(Live(c), ops[|ops| - 1].now))
    decreases |ops|
  {
    if ops != [] {
      var before := ops[..|ops| - 1];
      HeartbeatsNonIncreasing(capacity, nothing, before);
      var b := Run(capacity, nothing, before);
      if before != [] {
        assert before[|before| - 1].now <= ops[|ops| - 1].now;
      } else {
        assert Live(b) == [];
      }
      ApplyTidy(b, ops[|ops| - 1]);
      ApplySorted(b, ops[|ops| - 1]);
    }
  }
}
