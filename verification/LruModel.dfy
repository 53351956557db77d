/** The session cache as a value: the tape of cells from head to tail, how many of them are live, where the
    janitor's cursor stands, and which keys the index knows. */
module LruModel {

  datatype Option<+T> = None | Some(value: T)

  datatype Cell<V> = Cell(key: string, value: V, heartbeat: int)

  /** `cursor` is the janitor's position on the tape, -1 when it has none. */
  datatype Cache<V> = Cache(capacity: nat, tape: seq<Cell<V>>, live: nat, cursor: int, index: set<string>)

  /** A cache no session was ever put in; `nothing` is what an unused cell holds. */
  function New<V>(capacity: nat, nothing: V): Cache<V> {
    Cache(capacity, seq(capacity, _ => Cell("", nothing, 0)), 0, -1, {})
  }

  ghost function Keys<V>(cells: seq<Cell<V>>): set<string> {
    set i | 0 <= i < |cells| :: cells[i].key
  }

  ghost predicate Distinct<V>(cells: seq<Cell<V>>) {
    forall i, j :: 0 <= i < j < |cells| ==> cells[i].key != cells[j].key
  }

  /** Index, count and active prefix describe the same sessions. */
  ghost predicate Agrees<V>(c: Cache<V>) {
    && 2 <= c.capacity <= |c.tape|
    && c.live <= |c.tape|
    && -1 <= c.cursor < c.live
    && c.index == Keys(c.tape[..c.live])
    && Distinct(c.tape[..c.live])
  }

  /** What holds of count, cursor and tape even when they and the index no longer agree. */
  ghost predicate Standing<V>(c: Cache<V>) {
    2 <= c.capacity <= |c.tape| && c.live <= |c.tape| && -1 <= c.cursor < |c.tape|
  }

  /** Where the live cell of an indexed key is. */
  ghost function Position<V>(c: Cache<V>, key: string): (i: nat)
    requires Agrees(c) && key in c.index
    ensures i < c.live && c.tape[i].key == key
  {
    var i :| 0 <= i < c.live && c.tape[..c.live][i].key == key;
    i
  }

  lemma PositionUnique<V>(c: Cache<V>, i: nat)
    requires Agrees(c) && i < c.live
    ensures c.tape[i].key in c.index && Position(c, c.tape[i].key) == i
  {
    assert c.tape[..c.live][i].key in Keys(c.tape[..c.live]);
    var j := Position(c, c.tape[i].key);
    assert c.tape[..c.live][j].key == c.tape[..c.live][i].key;
  }

  /** s with its i-th element moved to the front. */
  function Front<T>(s: seq<T>, i: nat): seq<T>
    requires i < |s|
  {
    [s[i]] + s[..i] + s[i + 1..]
  }

  /** s without its i-th element. */
  function Cut<T>(s: seq<T>, i: nat): seq<T>
    requires i < |s|
  {
    s[..i] + s[i + 1..]
  }

  lemma FrontElements<T>(s: seq<T>, i: nat)
    requires i < |s|
    ensures |Front(s, i)| == |s| && Front(s, i)[0] == s[i]
    ensures forall j :: 0 < j <= i ==> Front(s, i)[j] == s[j - 1]
    ensures forall j :: i < j < |s| ==> Front(s, i)[j] == s[j]
  {
  }

  lemma SlideLands<T>(s: seq<T>, i: nat, j: nat)
    requires i < |s| && j < |s|
    ensures 0 <= Slide(j, i) < |s| && Front(s, i)[Slide(j, i)] == s[j]
  {
  }

  /** Where a position is found after the i-th element moved to the front. */
  function Slide(position: int, i: nat): int {
    if position == i then 0 else if 0 <= position < i then position + 1 else position
  }

  /** Write a cell in place. */
  function Write<V>(c: Cache<V>, i: nat, cell: Cell<V>): Cache<V>
    requires i < |c.tape|
  {
    c.(tape := c.tape[i := cell])
  }

  /** Move a cell to the head of the tape. */
  function Raise<V>(c: Cache<V>, i: nat): Cache<V>
    requires i < |c.tape|
  {
    c.(tape := Front(c.tape, i), cursor := Slide(c.cursor, i))
  }

  function Touch<V>(c: Cache<V>, i: nat, cell: Cell<V>): Cache<V>
    requires i < |c.tape|
  {
    Raise(Write(c, i, cell), i)
  }

  ghost function Get<V>(c: Cache<V>, key: string, now: int): Cache<V>
    requires Agrees(c)
  {
    if key !in c.index then c
    else
      var i := Position(c, key);
      Touch(c, i, c.tape[i].(heartbeat := now))
  }

  ghost function Lookup<V>(c: Cache<V>, key: string): Option<V>
    requires Agrees(c)
  {
    if key !in c.index then None else Some(c.tape[Position(c, key)].value)
  }

  ghost function Set<V>(c: Cache<V>, key: string, value: V, now: int): Cache<V>
    requires Agrees(c)
  {
    var cell := Cell(key, value, now);
    if key in c.index then Touch(c, Position(c, key), cell)
    else if c.live < c.capacity then Recycle(c, cell)
    else Grow(c, cell)
  }

  /** A new session within capacity takes the physical tail; whatever key that cell last had is dropped
      from the index. */
  function Recycle<V>(c: Cache<V>, cell: Cell<V>): Cache<V>
    requires c.tape != []
  {
    var last := |c.tape| - 1;
    var dropped := c.tape[last].key;
    Cache(c.capacity,
          [cell] + c.tape[..last],
          c.live + 1,
          if c.live == 0 then 0 else Slide(c.cursor, last),
          (if dropped != "" then c.index - {dropped} else c.index) + {cell.key})
  }

  /** A new session beyond capacity gets a new cell. */
  function Grow<V>(c: Cache<V>, cell: Cell<V>): Cache<V> {
    Cache(c.capacity, [cell] + c.tape, c.live + 1, if c.cursor == -1 then -1 else c.cursor + 1,
          c.index + {cell.key})
  }

  /** What one pass of the janitor's loop decides. */
  datatype Outcome = Asleep | Evicted(key: string) | Waiting(duration: int)

  function Judge<V>(c: Cache<V>, idleTimeout: int, now: int): Outcome
    requires c.cursor < |c.tape|
  {
    if c.live == 0 || c.cursor < 0 then Asleep
    else
      var idle := now - c.tape[c.cursor].heartbeat;
      if idle >= idleTimeout then Evicted(c.tape[c.cursor].key) else Waiting(idleTimeout - idle)
  }

  function Sweep<V>(c: Cache<V>, idleTimeout: int, now: int): Cache<V>
    requires c.cursor < |c.tape|
  {
    match Judge(c, idleTimeout, now)
    case Asleep => c.(live := 0, cursor := -1)
    case Waiting(_) => c
    case Evicted(_) => Evict(c)
  }

  /** Forget the cell at the cursor, cutting it off the tape if that still leaves more live cells than the
      capacity, and step the cursor up. */
  function Evict<V>(c: Cache<V>): Cache<V>
    requires 0 <= c.cursor < |c.tape| && c.live > 0
  {
    Cache(c.capacity,
          if c.live - 1 > c.capacity then Cut(c.tape, c.cursor) else c.tape,
          c.live - 1,
          c.cursor - 1,
          c.index - {c.tape[c.cursor].key})
  }

  lemma WriteKeepsAgrees<V>(c: Cache<V>, i: nat, cell: Cell<V>)
    requires Agrees(c) && i < c.live && cell.key == c.tape[i].key
    ensures Agrees(Write(c, i, cell))
  {
    var prefix := c.tape[..c.live];
    var prefix' := c.tape[i := cell][..c.live];
    assert forall j :: 0 <= j < c.live ==> prefix'[j].key == prefix[j].key;
    KeysOfEqualKeys(prefix, prefix');
  }

  lemma KeysOfEqualKeys<V>(s: seq<Cell<V>>, t: seq<Cell<V>>)
    requires |s| == |t| && forall j :: 0 <= j < |s| ==> s[j].key == t[j].key
    ensures Keys(s) == Keys(t)
    ensures Distinct(s) ==> Distinct(t)
  {
    forall k ensures k in Keys(s) <==> k in Keys(t) {
      if j :| 0 <= j < |s| && s[j].key == k {
        assert t[j].key == k;
      }
      if j :| 0 <= j < |t| && t[j].key == k {
        assert s[j].key == k;
      }
    }
  }

  lemma FrontKeepsKeys<V>(s: seq<Cell<V>>, i: nat)
    requires i < |s|
    ensures Keys(Front(s, i)) == Keys(s)
    ensures Distinct(s) ==> Distinct(Front(s, i))
  {
    FrontElements(s, i);
    forall k ensures k in Keys(s) <==> k in Keys(Front(s, i)) {
      if j :| 0 <= j < |s| && s[j].key == k {
        SlideLands(s, i, j);
        assert Front(s, i)[Slide(j, i)].key == k;
      }
    }
  }

  lemma RaiseKeepsAgrees<V>(c: Cache<V>, i: nat)
    requires Agrees(c) && i < c.live
    ensures Agrees(Raise(c, i))
  {
    assert Raise(c, i).tape[..c.live] == Front(c.tape[..c.live], i);
    FrontKeepsKeys(c.tape[..c.live], i);
  }

  /** Whether a new session's cell can be had without losing a live key: the recycled tail carries no live
      key (a cell the janitor expired keeps its key, and that key may be live again elsewhere). */
  ghost predicate Reusable<V>(c: Cache<V>, key: string)
    requires c.tape != []
  {
    var dropped := c.tape[|c.tape| - 1].key;
    key in c.index || c.live >= c.capacity || dropped == "" || dropped !in c.index
  }

  lemma ConsKeys<V>(cell: Cell<V>, s: seq<Cell<V>>)
    ensures Keys([cell] + s) == {cell.key} + Keys(s)
    ensures cell.key !in Keys(s) && Distinct(s) ==> Distinct([cell] + s)
  {
    var t := [cell] + s;
    assert t[0].key == cell.key;
    forall k ensures k in Keys(t) <==> k in {cell.key} + Keys(s) {
      if k in Keys(t) && k != cell.key {
        var j :| 0 <= j < |t| && t[j].key == k;
        assert s[j - 1].key == k;
      }
      if j :| 0 <= j < |s| && s[j].key == k {
        assert t[j + 1].key == k;
      }
    }
    forall i, j | 0 <= i < j < |t| && cell.key !in Keys(s) && Distinct(s)
      ensures t[i].key != t[j].key
    {
      assert s[j - 1].key in Keys(s);
    }
  }

  lemma RecycleAgrees<V>(c: Cache<V>, cell: Cell<V>)
    requires Agrees(c) && cell.key !in c.index && c.live < c.capacity
    ensures Agrees(Recycle(c, cell)) <==> Reusable(c, cell.key)
  {
    var last := |c.tape| - 1;
    var dropped := c.tape[last].key;
    assert Recycle(c, cell).tape[..c.live + 1] == [cell] + c.tape[..c.live];
    ConsKeys(cell, c.tape[..c.live]);
    if dropped != "" && dropped in c.index {
      assert dropped !in Recycle(c, cell).index;
    }
  }

  lemma GrowAgrees<V>(c: Cache<V>, cell: Cell<V>)
    requires Agrees(c) && cell.key !in c.index
    ensures Agrees(Grow(c, cell))
  {
    assert Grow(c, cell).tape[..c.live + 1] == [cell] + c.tape[..c.live];
    ConsKeys(cell, c.tape[..c.live]);
  }

  /** Set keeps index, count and prefix in agreement exactly when it loses no live key. */
  lemma SetAgrees<V>(c: Cache<V>, key: string, value: V, now: int)
    requires Agrees(c)
    ensures Agrees(Set(c, key, value, now)) <==> Reusable(c, key)
  {
    var cell := Cell(key, value, now);
    if key in c.index {
      WriteKeepsAgrees(c, Position(c, key), cell);
      RaiseKeepsAgrees(Write(c, Position(c, key), cell), Position(c, key));
    } else if c.live < c.capacity {
      RecycleAgrees(c, cell);
    } else {
      GrowAgrees(c, cell);
    }
  }

  lemma GetAgrees<V>(c: Cache<V>, key: string, now: int)
    requires Agrees(c)
    ensures Agrees(Get(c, key, now))
  {
    if key in c.index {
      var i := Position(c, key);
      WriteKeepsAgrees(c, i, c.tape[i].(heartbeat := now));
      RaiseKeepsAgrees(Write(c, i, c.tape[i].(heartbeat := now)), i);
    }
  }

  lemma CutKeys<V>(s: seq<Cell<V>>, i: nat)
    requires i < |s| && Distinct(s)
    ensures Keys(Cut(s, i)) == Keys(s) - {s[i].key}
    ensures Distinct(Cut(s, i))
  {
    var t := Cut(s, i);
    forall k ensures k in Keys(t) <==> k in Keys(s) - {s[i].key} {
      if k in Keys(s) - {s[i].key} {
        var j :| 0 <= j < |s| && s[j].key == k;
        assert t[if j < i then j else j - 1].key == k;
      }
      if j :| 0 <= j < |t| && t[j].key == k {
        assert s[if j < i then j else j + 1].key == k;
      }
    }
  }

  /** When one pass of the janitor keeps index, count and prefix in agreement: it evicts the bottom of the
      prefix, or cuts the cell it evicts off the tape; and it falls asleep only on an empty cache. */
  ghost predicate SweepsBottom<V>(c: Cache<V>, idleTimeout: int, now: int)
    requires c.cursor < |c.tape|
  {
    match Judge(c, idleTimeout, now)
    case Asleep => c.live == 0
    case Waiting(_) => true
    case Evicted(_) => c.cursor == c.live - 1 || c.live - 1 > c.capacity
  }

  lemma SweepAgrees<V>(c: Cache<V>, idleTimeout: int, now: int)
    requires Agrees(c)
    ensures Agrees(Sweep(c, idleTimeout, now)) <==> SweepsBottom(c, idleTimeout, now)
  {
    var swept := Sweep(c, idleTimeout, now);
    var prefix := c.tape[..c.live];
    if Judge(c, idleTimeout, now).Asleep? && c.live > 0 {
      assert prefix[0].key in Keys(prefix);
      assert swept.tape[..0] == [];
    } else if Judge(c, idleTimeout, now).Evicted? {
      CutKeys(prefix, c.cursor);
      if c.live - 1 > c.capacity {
        assert swept.tape[..c.live - 1] == Cut(prefix, c.cursor);
      } else if c.cursor == c.live - 1 {
        assert swept.tape[..c.live - 1] == Cut(prefix, c.cursor);
      } else {
        assert swept.tape[..c.live - 1][c.cursor].key in Keys(swept.tape[..c.live - 1]);
      }
    }
  }
}
