/** The cache as it is built: nodes linked in both directions, an index into them, and fields updated in
    place. Each method is one locked section; the clock reading is a parameter. */
module LruCache {
  import opened LruModel
  import LruJanitor

  class Node {
    var key: string
    var value: object?
    var lastHeartbeat: int
    var prev: Node?
    var next: Node?

    constructor (key: string, value: object?, lastHeartbeat: int)
      ensures this.key == key && this.value == value && this.lastHeartbeat == lastHeartbeat
      ensures prev == null && next == null
    {
      this.key, this.value, this.lastHeartbeat := key, value, lastHeartbeat;
      prev, next := null, null;
    }
  }

  /** The nodes are distinct and linked in both directions, in order. */
  ghost predicate Chain(nodes: seq<Node>, repr: set<Node>)
    reads repr`prev, repr`next
  {
    && (forall i :: 0 <= i < |nodes| ==> nodes[i] in repr)
    && (forall i, j :: 0 <= i < j < |nodes| ==> nodes[i] != nodes[j])
    && (forall i {:trigger nodes[i].prev} :: 0 <= i < |nodes| ==>
          nodes[i].prev == if i == 0 then null else nodes[i - 1])
    && (forall i {:trigger nodes[i].next} :: 0 <= i < |nodes| ==>
          nodes[i].next == if i == |nodes| - 1 then null else nodes[i + 1])
  }

  /** The nodes hold what the cells say. */
  ghost predicate Shows(nodes: seq<Node>, repr: set<Node>, cells: seq<Cell<object?>>)
    reads repr`key, repr`value, repr`lastHeartbeat
  {
    && |nodes| == |cells|
    && forall i :: 0 <= i < |nodes| ==>
      nodes[i] in repr && cells[i] == Cell(nodes[i].key, nodes[i].value, nodes[i].lastHeartbeat)
  }

  /** The index leads to some of the nodes, which carry its keys; unless `strict`, nothing is said of the empty
      key, which a recycled node never gives back. */
  ghost predicate Indexed(index: map<string, Node>, nodes: seq<Node>, repr: set<Node>, strict: bool)
    reads repr`key
  {
    forall k :: k in index ==>
      index[k] in repr && (strict || k != "" ==> index[k] in nodes && index[k].key == k)
  }

  /** The links of the nodes once node i has been unlinked and put before node 0. */
  ghost predicate Raised(nodes: seq<Node>, repr: set<Node>, i: nat)
    requires 0 < i < |nodes|
    reads repr
  {
    && (forall j :: 0 <= j < |nodes| ==> nodes[j] in repr)
    && (forall j, k :: 0 <= j < k < |nodes| ==> nodes[j] != nodes[k])
    && nodes[i].prev == null && nodes[0].prev == nodes[i] && nodes[i].next == nodes[0]
    && nodes[i - 1].next == (if i == |nodes| - 1 then null else nodes[i + 1])
    && (i < |nodes| - 1 ==> nodes[i + 1].prev == nodes[i - 1])
    && (forall j {:trigger nodes[j].prev} :: 0 < j < |nodes| && j != i && j != i + 1 ==>
          nodes[j].prev == nodes[j - 1])
    && (forall j {:trigger nodes[j].next} :: 0 <= j < |nodes| && j != i && j != i - 1 ==>
          nodes[j].next == if j == |nodes| - 1 then null else nodes[j + 1])
  }

  lemma RaisedIsChain(nodes: seq<Node>, repr: set<Node>, i: nat)
    requires 0 < i < |nodes| && Raised(nodes, repr, i)
    ensures Chain(Front(nodes, i), repr)
  {
    var s := Front(nodes, i);
    FrontElements(nodes, i);
    forall j | 0 <= j < |s|
      ensures s[j].prev == if j == 0 then null else s[j - 1]
      ensures s[j].next == if j == |s| - 1 then null else s[j + 1]
    {
    }
  }

  lemma FrontShows(nodes: seq<Node>, repr: set<Node>, cells: seq<Cell<object?>>, i: nat)
    requires Shows(nodes, repr, cells) && i < |nodes|
    ensures Shows(Front(nodes, i), repr, Front(cells, i))
  {
    FrontElements(nodes, i);
    FrontElements(cells, i);
  }

  lemma FrontIndexed(index: map<string, Node>, nodes: seq<Node>, repr: set<Node>, strict: bool, depth: nat, i: nat)
    requires i < depth <= |nodes| && Indexed(index, nodes[..depth], repr, strict)
    ensures Indexed(index, Front(nodes, i)[..depth], repr, strict)
  {
    assert Front(nodes, i)[..depth] == Front(nodes[..depth], i);
  }

  /** A node the cache did not have yet. */
  lemma ConsNew(index: map<string, Node>, prefix: seq<Node>, nodes: seq<Node>, repr: set<Node>, strict: bool,
                cells: seq<Cell<object?>>, node: Node)
    requires Shows(nodes, repr, cells) && Indexed(index, prefix, repr, strict)
    ensures Shows([node] + nodes, repr + {node}, [Cell(node.key, node.value, node.lastHeartbeat)] + cells)
    ensures Indexed(index, prefix, repr + {node}, strict)
  {
  }

  lemma ConsIndexed(index: map<string, Node>, index': map<string, Node>, nodes: seq<Node>, repr: set<Node>,
                    strict: bool, node: Node)
    requires Indexed(index, nodes, repr, strict) && node in repr
    requires forall k :: k in index' ==> (k == node.key && index'[k] == node) || (k in index && index'[k] == index[k])
    ensures Indexed(index', [node] + nodes, repr, strict)
  {
  }

  lemma CutShows(nodes: seq<Node>, repr: set<Node>, cells: seq<Cell<object?>>, i: nat)
    requires Shows(nodes, repr, cells) && i < |nodes|
    ensures Shows(Cut(nodes, i), repr, Cut(cells, i))
  {
  }

  /** Forgetting the key of one node leaves the index leading into the others. */
  lemma CutIndexed(index: map<string, Node>, nodes: seq<Node>, repr: set<Node>, strict: bool, prefix: seq<Node>, i: nat)
    requires prefix <= nodes && i < |prefix| && Indexed(index, prefix, repr, strict) && nodes[i] in repr
    ensures
      var rest := Cut(prefix, i);
      var index' := index - {nodes[i].key};
      && Indexed(index', rest, repr, strict) && Indexed(index', nodes, repr, strict)
      && Indexed(index', Cut(nodes, i), repr, strict)
      && rest <= Cut(nodes, i)
      && (i == |prefix| - 1 ==> rest <= nodes)
  {
    forall k | k in index - {nodes[i].key} && (strict || k != "")
      ensures index[k] in Cut(prefix, i) && index[k] in nodes && index[k] in Cut(nodes, i)
    {
      var j :| 0 <= j < |prefix| && prefix[j] == index[k];
      assert Cut(prefix, i)[if j < i then j else j - 1] == index[k];
      assert Cut(nodes, i)[if j < i then j else j - 1] == index[k];
    }
  }

  class ReactiveLruCache {
    const capacity: nat
    const idleTimeout: int
    var items: map<string, Node>
    var head: Node?
    var tail: Node?
    var activeCount: int
    var activeTail: Node?
    ghost var tape: seq<Node>       // the nodes from head to tail
    ghost var repr: set<Node>       // every node this cache allocated
    ghost var view: Cache<object?>  // the value the object stands for

    /** From head to tail there is one acyclic doubly linked list. */
    ghost predicate Linked()
      reads this`tape, this`head, this`tail, this`repr, repr`prev, repr`next
    {
      tape != [] && head == tape[0] && tail == tape[|tape| - 1] && Chain(tape, repr)
    }

    /** The view is what the fields say. */
    ghost predicate Viewed()
      reads this, repr
    {
      && view.capacity == capacity && view.index == items.Keys && view.live == activeCount
      && |view.tape| == |tape| && Shows(tape, repr, view.tape)
      && -1 <= view.cursor < |tape|
      && activeTail == if view.cursor == -1 then null else tape[view.cursor]
    }

    /** The index leads into the first `depth` nodes of the tape. */
    ghost predicate Reaches(depth: nat, strict: bool)
      reads this, repr
    {
      Linked() && Viewed() && depth <= |tape| && Indexed(items, tape[..depth], repr, strict)
    }

    /** What no operation can break: a well-formed list, and an index that leads into it. */
    ghost predicate Sound()
      reads this, repr
    {
      Reaches(|tape|, false) && Standing(view)
    }

    /** The index leads into the active prefix. */
    ghost predicate Consistent()
      reads this, repr
    {
      activeCount >= 0 && Reaches(activeCount, true)
    }

    /** Besides, index, count and active prefix agree. */
    ghost predicate Valid()
      reads this, repr
    {
      Consistent() && Agrees(view)
    }

    lemma Weaken(depth: nat, strict: bool)
      requires Reaches(depth, strict)
      ensures Reaches(|tape|, false)
    {
      assert tape[..|tape|] == tape;
      assert forall n :: n in tape[..depth] ==> n in tape;
    }

    lemma ValidIsSound()
      requires Valid()
      ensures Sound() && forall k :: k in items ==> items[k] in tape
    {
      Weaken(activeCount, true);
      forall k | k in items
        ensures items[k] in tape
      {
        assert items[k] in tape[..activeCount];
      }
    }

    /** Any capacity gives that many unused nodes in one list (none, if it is zero); from two on the cache works. */
    constructor (capacity: nat, idleTimeout: int)
      ensures this.capacity == capacity && this.idleTimeout == idleTimeout
      ensures view == New(capacity, null) && Viewed() && fresh(repr)
      ensures items == map[] && (if capacity == 0 then head == null && tail == null && tape == [] else Linked())
      ensures capacity >= 2 ==> Valid()
    {
      this.capacity := capacity;
      this.idleTimeout := idleTimeout;
      items := map[];
      head, tail, activeTail := null, null, null;
      activeCount := 0;
      tape, repr := [], {};
      view := New(capacity, null);
      new;
      var prevNode: Node? := null;
      for i := 0 to capacity
        invariant |tape| == i && fresh(repr)
        invariant items == map[] && activeCount == 0 && activeTail == null && view == New(capacity, null)
        invariant if i == 0 then prevNode == null && head == null else head == tape[0] && prevNode == tape[i - 1]
        invariant Chain(tape, repr)
        invariant forall j :: 0 <= j < i ==>
          tape[j].key == "" && tape[j].value == null && tape[j].lastHeartbeat == 0
      {
        prevNode := Append(prevNode);
      }
      tail := prevNode;
    }

    /** Link one unused node behind the last one. */
    method Append(prevNode: Node?) returns (node: Node)
      requires Chain(tape, repr)
      requires if tape == [] then prevNode == null && head == null
               else head == tape[0] && prevNode == tape[|tape| - 1]
      modifies this`head, this`tape, this`repr, repr`next
      ensures tape == old(tape) + [node] && fresh(node) && repr == old(repr) + {node}
      ensures Chain(tape, repr) && head == tape[0]
      ensures node.key == "" && node.value == null && node.lastHeartbeat == 0
    {
      node := new Node("", null, 0);
      if head == null {
        head := node;
      }
      if prevNode != null {
        prevNode.next := node;
        node.prev := prevNode;
      }
      tape, repr := tape + [node], repr + {node};
    }

    method MoveToHead(node: Node, ghost i: nat)
      requires Linked() && i < |tape| && tape[i] == node
      modifies this`head, this`tail, this`tape, repr`prev, repr`next
      ensures Linked()
      ensures tape == Front(old(tape), i)
    {
      if node == head {
        assert i == 0;
        assert tape == Front(tape, 0);
        return;
      }
      ghost var before := tape;
      assert node.prev == before[i - 1] && node.next == if i == |before| - 1 then null else before[i + 1];
      if node.prev != null {
        node.prev.next := node.next;
      }
      if node.next != null {
        node.next.prev := node.prev;
      }
      if node == tail {
        tail := node.prev;
      }
      node.prev := null;
      node.next := head;
      if head != null {
        head.prev := node;
      }
      head := node;
      assert Raised(before, repr, i);
      RaisedIsChain(before, repr, i);
      tape := Front(before, i);
    }

    method RemoveNodePhysical(node: Node, ghost i: nat)
      requires Linked() && i < |tape| && tape[i] == node && |tape| >= 2
      modifies this`head, this`tail, this`tape, repr`prev, repr`next
      ensures Linked()
      ensures tape == Cut(old(tape), i)
    {
      if node.prev != null {
        node.prev.next := node.next;
      } else {
        head := node.next;
      }
      if node.next != null {
        node.next.prev := node.prev;
      } else {
        tail := node.prev;
      }
      tape := Cut(tape, i);
    }

    /** moveToHead with its effect on the cache as a whole. */
    method Refresh(node: Node, ghost i: nat, ghost depth: nat, ghost strict: bool)
      requires Reaches(depth, strict) && i < depth && tape[i] == node
      modifies this`head, this`tail, this`tape, this`view, repr`prev, repr`next
      ensures tape == Front(old(tape), i)
      ensures view == Raise(old(view), i)
      ensures Reaches(depth, strict)
    {
      ghost var before, cells := tape, view.tape;
      if view.cursor >= 0 {
        SlideLands(before, i, view.cursor);
      }
      FrontShows(before, repr, cells, i);
      FrontIndexed(items, before, repr, strict, depth, i);
      view := Raise(view, i);
      MoveToHead(node, i);
    }

    /** Write a node's value and heartbeat. */
    method Stamp(node: Node, value: object?, now: int, ghost i: nat, ghost depth: nat, ghost strict: bool)
      requires Reaches(depth, strict) && i < |tape| && tape[i] == node
      modifies this`view, node`value, node`lastHeartbeat
      ensures Reaches(depth, strict)
      ensures view == Write(old(view), i, Cell(node.key, value, now))
    {
      node.value := value;
      node.lastHeartbeat := now;
      view := Write(view, i, Cell(node.key, value, now));
    }

    /** Refresh a session: new value and heartbeat, then to the head. */
    method Touch(node: Node, value: object?, now: int, ghost i: nat, ghost depth: nat, ghost strict: bool)
      requires Reaches(depth, strict) && i < depth && tape[i] == node
      modifies this`head, this`tail, this`tape, this`view, repr
      ensures Reaches(depth, strict)
      ensures tape == Front(old(tape), i)
      ensures view == LruModel.Touch(old(view), i, Cell(old(node.key), value, now))
      ensures node.value == value
    {
      Stamp(node, value, now, i, depth, strict);
      Refresh(node, i, depth, strict);
    }

    /** Touch the node the index gives for a key, wherever on the tape it is. */
    method TouchIndexed(key: string, value: object?, now: int) returns (ghost i: nat)
      requires Sound() && key in items && items[key] in tape
      modifies this`head, this`tail, this`tape, this`view, repr
      ensures Sound()
      ensures i < |old(tape)| && old(tape)[i] == items[key] && items[key].value == value
      ensures tape == Front(old(tape), i)
      ensures view == LruModel.Touch(old(view), i, Cell(old(items[key].key), value, now))
      ensures old(items[key].key) == old(view).tape[i].key
      ensures old(Valid()) ==>
        && Consistent() && i == Position(old(view), key) && i < old(view).live && old(items[key].key) == key
    {
      hide Chain, Keys, Distinct, Shows, Indexed;
      var node := items[key];
      ghost var depth: nat, strict: bool;
      i, depth, strict := Locate(key);
      assert Standing(LruModel.Touch(view, i, Cell(node.key, value, now)));
      Touch(node, value, now, i, depth, strict);
      Weaken(depth, strict);
    }

    /** Where an indexed node is: in the active prefix if the cache agrees, else anywhere on the tape. */
    lemma Locate(key: string) returns (i: nat, depth: nat, strict: bool)
      requires Sound() && key in items && items[key] in tape
      ensures Reaches(depth, strict) && i < depth && tape[i] == items[key] && items[key].key == view.tape[i].key
      ensures strict <==> Valid()
      ensures strict ==> depth == activeCount && i == Position(view, key) && items[key].key == key
    {
      depth, strict := |tape|, false;
      i :| 0 <= i < |tape| && tape[i] == items[key];
      if Valid() {
        i := LiveNode(key);
        depth, strict := activeCount, true;
      }
    }

    /** On any sound cache: the node of an indexed key is restamped and moved to the head, and nothing else
        changes; on an agreeing one that is the value cache's Get. */
    method Get(key: string, now: int) returns (value: object?, found: bool)
      requires Sound() && (key in items ==> items[key] in tape)
      modifies this`head, this`tail, this`tape, this`view, repr
      ensures Sound()
      ensures found <==> key in old(items)
      ensures found ==> value == old(items[key].value)
      ensures !found ==> view == old(view) && tape == old(tape)
      ensures found ==>
        exists i ::
          && 0 <= i < |old(tape)| && old(tape)[i] == old(items)[key] && tape == Front(old(tape), i)
          && view == LruModel.Touch(old(view), i, old(view).tape[i].(heartbeat := now))
      ensures old(Valid()) ==>
        && Valid() && view == LruModel.Get(old(view), key, now)
        && tape == (if key in old(view).index then Front(old(tape), Position(old(view), key)) else old(tape))
        && (found ==> Lookup(old(view), key) == Some(value))
    {
      if key !in items {
        return null, false;
      }
      if Valid() {
        GetAgrees(view, key, now);
      }
      value := items[key].value;
      ghost var i := TouchIndexed(key, value, now);
      return value, true;
    }

    /** The indexed node of a key sits at the key's position. */
    lemma LiveNode(key: string) returns (i: nat)
      requires Valid() && key in items
      ensures i < activeCount && i == Position(view, key) && tape[i] == items[key]
    {
      i :| 0 <= i < activeCount && tape[..activeCount][i] == items[key];
      PositionUnique(view, i);
    }

    /** On any sound cache: an indexed key's node gets the value and moves to the head; another key recycles the
        tail or gets a new node. On an agreeing cache that is the value cache's Set. */
    method Set(key: string, value: object?, now: int)
      requires Sound() && (key in items ==> items[key] in tape)
      modifies this, repr
      ensures Sound()
      ensures key in old(items) ==>
        exists i ::
          && 0 <= i < |old(tape)| && old(tape)[i] == old(items)[key]
          && view == LruModel.Touch(old(view), i, Cell(old(view).tape[i].key, value, now))
      ensures key !in old(items) ==>
        view == if old(view).live < capacity then LruModel.Recycle(old(view), Cell(key, value, now))
                else LruModel.Grow(old(view), Cell(key, value, now))
      ensures old(Valid()) ==>
        && Consistent() && view == LruModel.Set(old(view), key, value, now)
        && (Valid() <==> Reusable(old(view), key))
      ensures old(repr) <= repr && fresh(repr - old(repr))
      ensures key in old(view).index || old(view).live < capacity ==> repr == old(repr)
    {
      hide Keys, Distinct, Chain, Shows;
      ghost var strict := Valid();
      ghost var before := view;
      if Valid() {
        SetAgrees(view, key, value, now);
      }
      if key in items {
        ghost var i := TouchIndexed(key, value, now);
        assert view == LruModel.Touch(before, i, Cell(before.tape[i].key, value, now));
      } else if activeCount < capacity {
        Recycle(key, value, now, if strict then activeCount else |tape| - 1, strict);
      } else {
        Grow(key, value, now, if strict then activeCount else |tape|, strict);
      }
    }

    /** Within capacity: the physical tail becomes the new session's node. */
    method Recycle(key: string, value: object?, now: int, ghost depth: nat, ghost strict: bool)
      requires Sound() && activeCount < capacity && key !in items
      requires if strict then Valid() && depth == activeCount else depth == |tape| - 1
      modifies this`items, this`activeCount, this`activeTail, this`head, this`tail, this`tape, this`view, repr
      ensures Sound() && (strict ==> Consistent())
      ensures view == LruModel.Recycle(old(view), Cell(key, value, now))
    {
      hide Keys, Distinct, Chain;
      var isEmpty := activeCount == 0;
      ghost var last := |tape| - 1;
      ghost var next := LruModel.Recycle(view, Cell(key, value, now));
      if view.cursor >= 0 {
        SlideLands(tape, last, view.cursor);
      }
      ghost var prefix := tape[..depth];
      DropStaleKey(prefix, strict);
      hide Indexed;
      Reuse(key, value, now, isEmpty, prefix, strict, next);
    }

    /** The tail node, its old key forgotten, takes a new session. */
    method Reuse(key: string, value: object?, now: int, isFirst: bool, ghost prefix: seq<Node>, ghost strict: bool,
                 ghost next: Cache<object?>)
      requires Linked() && Shows(tape, repr, view.tape) && prefix <= tape && |prefix| < |tape| && |tape| >= 2
      requires Indexed(items, prefix, repr, strict) && activeCount >= 0 && (strict ==> |prefix| == activeCount)
      requires next.tape == [Cell(key, value, now)] + view.tape[..|view.tape| - 1]
      requires next.capacity == capacity && next.live == activeCount + 1 && next.index == items.Keys + {key}
      requires Standing(next)
      requires if isFirst then next.cursor == 0
               else activeTail == if next.cursor == -1 then null else Front(tape, |tape| - 1)[next.cursor]
      modifies this`items, this`activeCount, this`activeTail, this`head, this`tail, this`tape, this`view, repr
      ensures Sound() && (strict ==> Consistent())
      ensures view == next
    {
      hide Keys, Distinct, Chain, Indexed, Standing;
      assert |view.tape| == |tape| by {
        assert Shows(tape, repr, view.tape);
      }
      hide Shows, Linked;
      var targetNode := RenewTail(key, value, now, prefix, strict);
      Register(targetNode, key, isFirst, prefix, strict, next);
    }

    /** Take the tail node's old key out of the index; what is left leads into the rest of the tape. */
    method DropStaleKey(ghost prefix: seq<Node>, ghost strict: bool)
      requires tape != [] && tail == tape[|tape| - 1] && tail in repr
      requires if strict then Indexed(items, prefix, repr, true)
               else prefix == tape[..|tape| - 1] && Indexed(items, tape[..|tape|], repr, false)
      modifies this`items
      ensures items.Keys == if tail.key != "" then old(items).Keys - {tail.key} else old(items).Keys
      ensures Indexed(items, prefix, repr, strict)
    {
      if tail.key != "" {
        items := items - {tail.key};
      }
    }

    /** Enter the node at the head into the index and count it. */
    method Register(node: Node, key: string, isFirst: bool, ghost prefix: seq<Node>, ghost strict: bool,
                    ghost next: Cache<object?>)
      requires Linked() && [node] + prefix <= tape && node in repr && node.key == key
      requires |next.tape| == |tape| && Shows(tape, repr, next.tape) && activeCount >= 0
      requires Indexed(items, prefix, repr, strict)
      requires next.capacity == capacity && next.live == activeCount + 1 && next.index == items.Keys + {key}
      requires Standing(next) && (strict ==> |prefix| == activeCount)
      requires if isFirst then next.cursor == 0
               else activeTail == if next.cursor == -1 then null else tape[next.cursor]
      modifies this`items, this`activeCount, this`activeTail, this`view
      ensures Sound() && (strict ==> Consistent())
      ensures view == next
    {
      hide Keys, Distinct, Chain;
      ConsIndexed(items, items[key := node], prefix, repr, strict, node);
      assert [node] + prefix == tape[..|prefix| + 1];
      assert isFirst ==> tape[0] == node;
      items := items[key := node];
      activeCount := activeCount + 1;
      if isFirst {
        activeTail := node;
      }
      view := next;
      assert Reaches(|prefix| + 1, strict);
      hide Linked, Viewed, Shows, Indexed, Standing;
      Weaken(|prefix| + 1, strict);
    }

    /** Give the tail node a new session and make it the head. */
    method RenewTail(key: string, value: object?, now: int, ghost prefix: seq<Node>, ghost strict: bool)
      returns (node: Node)
      requires Linked() && Shows(tape, repr, view.tape) && prefix <= tape && |prefix| < |tape| && |tape| >= 2
      requires Indexed(items, prefix, repr, strict)
      modifies this`head, this`tail, this`tape, repr
      ensures Linked() && node in repr && node.key == key
      ensures tape == Front(old(tape), |old(tape)| - 1) && [node] + prefix <= tape
      ensures Shows(tape, repr, [Cell(key, value, now)] + view.tape[..|view.tape| - 1])
      ensures Indexed(items, prefix, repr, strict)
    {
      hide Chain;
      node := tail;
      assert node in repr && |tape| == |view.tape|;
      hide Shows, Indexed;
      ghost var last, cell := |tape| - 1, Cell(key, value, now);
      Rekey(node, key, value, now, last, prefix, strict);
      FrontShows(tape, repr, view.tape[last := cell], last);
      assert Front(view.tape[last := cell], last) == [cell] + view.tape[..last];
      assert [node] + prefix <= Front(tape, last);
      TailToHead(node);
    }

    method Rekey(node: Node, key: string, value: object?, now: int, ghost i: nat, ghost prefix: seq<Node>,
                 ghost strict: bool)
      requires Linked() && Shows(tape, repr, view.tape) && prefix <= tape && |prefix| <= i < |tape| && tape[i] == node
      requires Indexed(items, prefix, repr, strict)
      modifies node`key, node`value, node`lastHeartbeat
      ensures node.key == key
      ensures Shows(tape, repr, view.tape[i := Cell(key, value, now)])
      ensures Indexed(items, prefix, repr, strict)
    {
      node.key := key;
      node.value := value;
      node.lastHeartbeat := now;
    }

    /** Take the tail node off the tape and put it back as the head. A node that is alone on the tape ends up
        linked to itself in both directions. */
    method TailToHead(node: Node)
      requires Linked() && node == tail
      modifies this`head, this`tail, this`tape, repr`prev, repr`next
      ensures |old(tape)| >= 2 ==> Linked() && tape == Front(old(tape), |old(tape)| - 1)
      ensures |old(tape)| == 1 ==> head == tail == node && node.next == node && node.prev == node && !Linked()
    {
      ghost var before, last := tape, |tape| - 1;
      assert node.prev == if last == 0 then null else before[last - 1];
      if node.prev != null {
        tail := node.prev;
        tail.next := null;
      }
      node.prev := null;
      node.next := head;
      if head != null {
        head.prev := node;
      }
      head := node;
      if last > 0 {
        assert Raised(before, repr, last);
        RaisedIsChain(before, repr, last);
        tape := Front(before, last);
      }
    }

    /** At capacity and beyond: one new node, put at the head. */
    method Grow(key: string, value: object?, now: int, ghost depth: nat, ghost strict: bool)
      requires Sound() && Reaches(depth, strict) && key !in items
      requires strict ==> depth == activeCount
      modifies this, repr
      ensures Sound() && (strict ==> Consistent())
      ensures view == LruModel.Grow(old(view), Cell(key, value, now))
      ensures old(repr) <= repr && fresh(repr - old(repr))
    {
      ghost var prefix := tape[..depth];
      var node := NewHead(key, value, now, prefix, strict);
      Register(node, key, false, prefix, strict, LruModel.Grow(view, Cell(key, value, now)));
    }

    /** Put a new node with a new session before the head. */
    method NewHead(key: string, value: object?, now: int, ghost prefix: seq<Node>, ghost strict: bool)
      returns (node: Node)
      requires Linked() && Shows(tape, repr, view.tape) && prefix <= tape && Indexed(items, prefix, repr, strict)
      modifies this`head, this`tape, this`repr, repr`prev
      ensures Linked() && fresh(node) && repr == old(repr) + {node} && node.key == key
      ensures tape == [node] + old(tape) && [node] + prefix <= tape
      ensures Shows(tape, repr, [Cell(key, value, now)] + view.tape)
      ensures Indexed(items, prefix, repr, strict)
    {
      node := new Node(key, value, now);
      assert [node] + prefix <= [node] + tape;
      ConsNew(items, prefix, tape, repr, strict, view.tape, node);
      hide Shows, Indexed, Chain;
      LinkHead(node);
    }

    /** Link a new node before the head. */
    method LinkHead(node: Node)
      requires Linked() && node !in repr && node.prev == null
      modifies this`head, this`tape, this`repr, node`next, repr`prev
      ensures Linked() && repr == old(repr) + {node}
      ensures tape == [node] + old(tape)
    {
      node.next := head;
      if head != null {
        head.prev := node;
      }
      head := node;
      tape, repr := [node] + tape, repr + {node};
    }

    /** One pass of the janitor's loop, under the lock, on any sound cache. */
    method JanitorPass(now: int) returns (outcome: Outcome)
      requires Sound()
      modifies this`items, this`activeCount, this`activeTail, this`head, this`tail, this`tape, this`view,
               repr`prev, repr`next
      ensures Sound()
      ensures view == Sweep(old(view), idleTimeout, now)
      ensures outcome == Judge(old(view), idleTimeout, now)
      ensures outcome.Waiting? ==>
        old(activeTail) != null && 0 < outcome.duration == old(activeTail.lastHeartbeat) + idleTimeout - now
      ensures old(Valid()) ==> (Valid() <==> SweepsBottom(old(view), idleTimeout, now))
    {
      hide Keys, Distinct, Chain;
      ghost var strict := Valid();
      if Valid() {
        SweepAgrees(view, idleTimeout, now);
      }
      assert activeTail == null <==> view.cursor == -1;
      assert activeTail != null ==>
        activeTail.lastHeartbeat == view.tape[view.cursor].heartbeat && activeTail.key == view.tape[view.cursor].key;
      assert strict ==> view.cursor < activeCount && Reaches(activeCount, true);
      assert view.live == activeCount && view.cursor < |tape| && view.capacity == capacity;
      hide Reaches, Standing;
      if activeCount == 0 || activeTail == null {
        FallAsleep();
        return Asleep;
      }
      var targetNode := activeTail;
      var timeSinceHeartbeat := now - targetNode.lastHeartbeat;
      if timeSinceHeartbeat < idleTimeout {
        return Waiting(idleTimeout - timeSinceHeartbeat);
      }
      outcome := Evicted(targetNode.key);
      Evict(targetNode, if strict then activeCount else |tape|, strict);
    }

    /** Nobody is left, or nobody the janitor can see. */
    method FallAsleep()
      requires Sound()
      modifies this`activeCount, this`activeTail, this`view
      ensures Sound() && view == old(view).(live := 0, cursor := -1)
      ensures old(view).live == 0 && old(Consistent()) ==> Consistent()
    {
      hide Keys, Distinct, Chain, Shows;
      activeTail := null;
      activeCount := 0;
      view := view.(live := 0, cursor := -1);
    }

    /** The janitor's loop from the moment it wakes to its next sleep or wait; `clock(i)` is what the i-th
        pass reads. */
    method DrainToSleep(clock: nat -> int) returns (evicted: seq<string>, outcome: Outcome)
      requires Valid() && LruJanitor.Ready(view)
      modifies this`items, this`activeCount, this`activeTail, this`head, this`tail, this`tape, this`view,
               repr`prev, repr`next
      ensures Valid() && LruJanitor.Ready(view)
      ensures (view, evicted) == LruJanitor.Drain(old(view), idleTimeout, clock, 0)
      ensures outcome == Judge(view, idleTimeout, clock(|evicted|)) && !outcome.Evicted?
      ensures outcome.Waiting? ==>
        && 0 <= view.cursor < |view.tape|
        && 0 < outcome.duration == view.tape[view.cursor].heartbeat + idleTimeout - clock(|evicted|)
    {
      hide Keys, Distinct, Chain, Shows, LruJanitor.Drain;
      ghost var start := view;
      evicted := [];
      LruJanitor.DrainBegins(start, idleTimeout, clock);
      while true
        invariant Valid() && LruJanitor.Ready(view)
        invariant LruJanitor.Continues(start, view, evicted, idleTimeout, clock)
        decreases activeCount
      {
        if Judge(view, idleTimeout, clock(|evicted|)).Evicted? {
          LruJanitor.DrainProceeds(start, view, evicted, idleTimeout, clock);
        } else {
          LruJanitor.DrainEnds(start, view, evicted, idleTimeout, clock);
        }
        ValidIsSound();
        outcome := JanitorPass(clock(|evicted|));
        if !outcome.Evicted? {
          return;
        }
        evicted := evicted + [outcome.key];
      }
    }

    method Evict(targetNode: Node, ghost depth: nat, ghost strict: bool)
      requires Sound() && Reaches(depth, strict) && activeCount > 0
      requires activeTail == targetNode && 0 <= view.cursor < depth && (strict ==> depth == activeCount)
      modifies this`items, this`activeCount, this`activeTail, this`head, this`tail, this`tape, this`view,
               repr`prev, repr`next
      ensures Sound()
      ensures view == LruModel.Evict(old(view))
      ensures strict && (old(view).cursor == old(view).live - 1 || old(view).live - 1 > capacity) ==> Consistent()
    {
      hide Keys, Distinct, Chain;
      ghost var next, prefix := LruModel.Evict(view), tape[..depth];
      assert targetNode.key == view.tape[view.cursor].key;
      Remove(targetNode, view.cursor, prefix, strict,
             strict && (view.cursor == view.live - 1 || view.live - 1 > capacity), next);
    }

    /** The victim goes, and activeTail moves up. */
    method Remove(targetNode: Node, ghost i: nat, ghost prefix: seq<Node>, ghost strict: bool, ghost whole: bool,
                  ghost next: Cache<object?>)
      requires Linked() && Shows(tape, repr, view.tape) && prefix <= tape && |tape| >= 2 && activeCount > 0
      requires i < |prefix| && tape[i] == targetNode && Indexed(items, prefix, repr, strict)
      requires next.tape == if activeCount - 1 > capacity then Cut(view.tape, i) else view.tape
      requires next.index == items.Keys - {targetNode.key} && next.live == activeCount - 1 && next.cursor == i - 1
      requires next.capacity == capacity && Standing(next)
      requires whole ==>
        strict && |prefix| == activeCount && (i == |prefix| - 1 || activeCount - 1 > capacity)
      modifies this`items, this`activeCount, this`activeTail, this`head, this`tail, this`tape, this`view,
               repr`prev, repr`next
      ensures Sound() && view == next
      ensures whole ==> Consistent()
    {
      hide Keys, Distinct, Chain, Indexed, Standing;
      assert |view.tape| == |tape| by {
        assert Shows(tape, repr, view.tape);
      }
      CutShows(tape, repr, view.tape, i);
      hide Shows, Linked;
      var nextActiveTail := Forget(targetNode, i, prefix, strict);
      Retarget(nextActiveTail, Cut(prefix, i), strict, whole, next);
    }

    /** Take a node out of the index and the count, and off the tape if that leaves more than the capacity. */
    method Forget(targetNode: Node, ghost i: nat, ghost prefix: seq<Node>, ghost strict: bool)
      returns (nextActiveTail: Node?)
      requires Linked() && i < |prefix| && prefix <= tape && tape[i] == targetNode && |tape| >= 2
      requires Indexed(items, prefix, repr, strict)
      modifies this`items, this`activeCount, this`head, this`tail, this`tape, repr`prev, repr`next
      ensures Linked() && activeCount == old(activeCount) - 1 && items == old(items) - {targetNode.key}
      ensures tape == if activeCount > capacity then Cut(old(tape), i) else old(tape)
      ensures Indexed(items, tape, repr, strict) && Indexed(items, Cut(prefix, i), repr, strict)
      ensures i == |prefix| - 1 || activeCount > capacity ==> Cut(prefix, i) <= tape
      ensures nextActiveTail == if i == 0 then null else tape[i - 1]
    {
      CutIndexed(items, tape, repr, strict, prefix, i);
      assert targetNode.prev == if i == 0 then null else tape[i - 1];
      items := items - {targetNode.key};
      activeCount := activeCount - 1;
      nextActiveTail := targetNode.prev;
      if activeCount > capacity {
        RemoveNodePhysical(targetNode, i);
      }
    }

    /** Move activeTail. */
    method Retarget(node: Node?, ghost rest: seq<Node>, ghost strict: bool, ghost whole: bool,
                    ghost next: Cache<object?>)
      requires Linked() && |next.tape| == |tape| && Shows(tape, repr, next.tape)
      requires Indexed(items, tape, repr, strict) && Standing(next) && activeCount >= 0
      requires next.capacity == capacity && next.live == activeCount && next.index == items.Keys
      requires node == if next.cursor == -1 then null else tape[next.cursor]
      requires Indexed(items, rest, repr, strict) && (whole ==> strict && rest <= tape && |rest| == activeCount)
      modifies this`activeTail, this`view
      ensures Sound() && view == next
      ensures whole ==> Consistent()
    {
      hide Keys, Distinct, Chain;
      assert whole ==> rest == tape[..activeCount];
      assert tape[..|tape|] == tape;
      activeTail := node;
      view := next;
      assert Reaches(|tape|, strict);
      hide Linked, Shows, Indexed, Standing;
      Weaken(|tape|, strict);
    }
  }
}
