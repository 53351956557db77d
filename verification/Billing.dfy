/** What a stream of packets costs: the gateway charges each packet as one UPDATE whose used and requested
    bytes are its size, and reports each evicted session as a TERMINATE. */
module Billing {
  import opened Numbers
  import opened Ocs

  /** `stamp` stands for the nanosecond clock reading in the session id. */
  datatype Happening =
    | Packet(imsi: string, size: uint64, chargingKey: nat, stamp: string)
    | Eviction(ip: string, stamp: string)

  const CALLBACK_SUBSCRIBER: string := "250010000000001"

  function PacketSession(imsi: string, stamp: string): string {
    "sess_" + imsi + "_" + stamp
  }

  function EvictionSession(ip: string, stamp: string): string {
    "term_" + ip + "_" + stamp
  }

  function RequestFor(h: Happening): Request {
    match h
    case Packet(imsi, size, key, stamp) => Update(imsi, PacketSession(imsi, stamp), key, size, size)
    case Eviction(ip, stamp) => Terminate(CALLBACK_SUBSCRIBER, EvictionSession(ip, stamp), 0, 0)
  }

  function Bill(l: Ledger, hs: seq<Happening>): Ledger {
    if hs == [] then l else Serve(Bill(l, hs[..|hs| - 1]), RequestFor(hs[|hs| - 1])).0
  }

  /** Bytes of the packets of one subscriber. */
  function Bytes(a: string, hs: seq<Happening>): nat {
    if hs == [] then 0
    else
      var h := hs[|hs| - 1];
      Bytes(a, hs[..|hs| - 1]) + if h.Packet? && h.imsi == a then h.size else 0
  }

  function LargestPacket(a: string, hs: seq<Happening>): nat {
    if hs == [] then 0
    else
      var h := hs[|hs| - 1];
      var before := LargestPacket(a, hs[..|hs| - 1]);
      if h.Packet? && h.imsi == a && h.size > before then h.size else before
  }

  /** Every stored session belongs to a packet. */
  ghost predicate PacketSessionsOnly(l: Ledger) {
    forall id :: id in l.sessions ==> "sess_" <= id
  }

  lemma EvictionIsNoPacket(ip: string, stamp: string)
    ensures !("sess_" <= EvictionSession(ip, stamp))
  {
    assert EvictionSession(ip, stamp)[0] == 't' && "sess_"[0] == 's';
  }

  /** An eviction's TERMINATE never finds its session, so it changes nothing at all. */
  lemma EvictionChangesNothing(l: Ledger, ip: string, stamp: string)
    requires PacketSessionsOnly(l)
    ensures Serve(l, RequestFor(Eviction(ip, stamp))) == (l, REFUSED)
  {
    EvictionIsNoPacket(ip, stamp);
  }

  /** A packet of an unknown subscriber changes nothing either. */
  lemma StrangerChangesNothing(l: Ledger, p: Happening)
    requires p.Packet? && p.imsi !in l.accounts
    ensures Serve(l, RequestFor(p)) == (l, REFUSED)
  {
  }

  /** One packet: it is paid from the balance as far as that goes, the reserve never holds more than it did or
      than the packet, and the answer is 4012 exactly if there was nothing left before it. */
  lemma PacketIsCharged(l: Ledger, p: Happening)
    requires p.Packet? && p.imsi in l.accounts && PacketSessionsOnly(l)
    ensures
      var (after, reply) := Serve(l, RequestFor(p));
      var was := l.accounts[p.imsi];
      && after.accounts.Keys == l.accounts.Keys && PacketSessionsOnly(after)
      && after.accounts[p.imsi].total == Max(0, was.total - p.size)
      && after.accounts[p.imsi].reserved <= Max(was.reserved, p.size)
      && (forall s :: s in l.accounts && s != p.imsi ==> after.accounts[s] == l.accounts[s])
      && (reply.code == CREDIT_LIMIT_REACHED <==> was.total == 0)
  {
    assert "sess_" <= PacketSession(p.imsi, p.stamp);
  }

  /** End-to-end billing: whatever packets of whichever subscribers and evictions come, after them a
      subscriber's balance is its opening balance less the bytes of its packets, but never below zero, and
      its reserve is bounded by what it was and the largest packet, however many packets were charged. */
  lemma {:induction false} BalanceIsOpeningLessBytes(a: string, l: Ledger, hs: seq<Happening>)
    requires a in l.accounts && PacketSessionsOnly(l)
    ensures
      var end := Bill(l, hs);
      && end.accounts.Keys == l.accounts.Keys && PacketSessionsOnly(end)
      && end.accounts[a].total == Max(0, l.accounts[a].total - Bytes(a, hs))
      && end.accounts[a].reserved <= Max(l.accounts[a].reserved, LargestPacket(a, hs))
    decreases |hs|
  {
    hide Serve, RequestFor, PacketSessionsOnly;
    if hs != [] {
      var before, h := hs[..|hs| - 1], hs[|hs| - 1];
      BalanceIsOpeningLessBytes(a, l, before);
      var mid := Bill(l, before);
      match h
      case Eviction(ip, stamp) => EvictionChangesNothing(mid, ip, stamp);
      case Packet(imsi, size, key, stamp) =>
        if imsi in mid.accounts {
          PacketIsCharged(mid, h);
        } else {
          StrangerChangesNothing(mid, h);
        }
    }
  }

  /** A packet is answered 4012 exactly when the subscriber's earlier packets had used up the balance. */
  lemma ThrottledIffExhausted(a: string, l: Ledger, hs: seq<Happening>, p: Happening)
    requires a in l.accounts && PacketSessionsOnly(l) && p.Packet? && p.imsi == a
    ensures Serve(Bill(l, hs), RequestFor(p)).1.code == CREDIT_LIMIT_REACHED <==> Bytes(a, hs) >= l.accounts[a].total
  {
    BalanceIsOpeningLessBytes(a, l, hs);
    PacketIsCharged(Bill(l, hs), p);
  }

  lemma {:induction false} BytesGrow(a: string, hs: seq<Happening>, more: seq<Happening>)
    ensures Bytes(a, hs + more) == Bytes(a, hs) + Bytes(a, more)
    decreases |more|
  {
    if more == [] {
      assert hs + more == hs;
    } else {
      assert (hs + more)[..|hs + more| - 1] == hs + more[..|more| - 1];
      BytesGrow(a, hs, more[..|more| - 1]);
    }
  }

  /** Throttling is permanent: once a packet was answered 4012 every later one of the subscriber is. */
  lemma ThrottlingIsPermanent(a: string, l: Ledger, hs: seq<Happening>, more: seq<Happening>,
                              p: Happening, q: Happening)
    requires a in l.accounts && PacketSessionsOnly(l) && p.Packet? && p.imsi == a && q.Packet? && q.imsi == a
    requires Serve(Bill(l, hs), RequestFor(p)).1.code == CREDIT_LIMIT_REACHED
    ensures Serve(Bill(l, hs + more), RequestFor(q)).1.code == CREDIT_LIMIT_REACHED
  {
    ThrottledIffExhausted(a, l, hs, p);
    ThrottledIffExhausted(a, l, hs + more, q);
    BytesGrow(a, hs, more);
  }

  /** Nothing in the stream ever closes a session. */
  lemma {:induction false} SessionsAreNeverClosed(l: Ledger, hs: seq<Happening>, more: seq<Happening>)
    requires PacketSessionsOnly(l)
    ensures PacketSessionsOnly(Bill(l, hs))
    ensures Bill(l, hs).sessions.Keys <= Bill(l, hs + more).sessions.Keys
    ensures PacketSessionsOnly(Bill(l, hs + more))
    decreases |hs| + |more|
  {
    if more == [] {
      assert hs + more == hs;
      if hs != [] {
        SessionsAreNeverClosed(l, hs[..|hs| - 1], []);
        ServeKeepsSessions(Bill(l, hs[..|hs| - 1]), hs[|hs| - 1]);
      }
    } else {
      var init := more[..|more| - 1];
      assert (hs + more)[..|hs + more| - 1] == hs + init;
      SessionsAreNeverClosed(l, hs, init);
      ServeKeepsSessions(Bill(l, hs + init), more[|more| - 1]);
    }
  }

  lemma ServeKeepsSessions(l: Ledger, h: Happening)
    requires PacketSessionsOnly(l)
    ensures PacketSessionsOnly(Serve(l, RequestFor(h)).0)
    ensures l.sessions.Keys <= Serve(l, RequestFor(h)).0.sessions.Keys
  {
    match h
    case Eviction(ip, stamp) => EvictionChangesNothing(l, ip, stamp);
    case Packet(imsi, size, key, stamp) =>
      assert "sess_" <= PacketSession(imsi, stamp);
  }

  /** The session ids of the packets that were granted something, in order. */
  function Opened(l: Ledger, hs: seq<Happening>): seq<string> {
    if hs == [] then []
    else
      var before, h := hs[..|hs| - 1], hs[|hs| - 1];
      Opened(l, before)
      + if h.Packet? && Serve(Bill(l, before), RequestFor(h)).1.code == SUCCESS
        then [PacketSession(h.imsi, h.stamp)] else []
  }

  ghost predicate NoRepeats(ids: seq<string>) {
    forall i, j :: 0 <= i < j < |ids| ==> ids[i] != ids[j]
  }

  lemma PacketOpensOne(l: Ledger, h: Happening)
    requires PacketSessionsOnly(l)
    ensures
      var (after, reply) := Serve(l, RequestFor(h));
      after.sessions.Keys ==
        if h.Packet? && reply.code == SUCCESS then l.sessions.Keys + {PacketSession(h.imsi, h.stamp)}
        else l.sessions.Keys
  {
    if h.Eviction? {
      EvictionChangesNothing(l, h.ip, h.stamp);
    }
  }

  /** The engine's sessions are those it had and those of the granted packets: with different session ids, n
      granted packets leave n more sessions behind. */
  lemma {:induction false} GrantedPacketsLeaveSessions(l: Ledger, hs: seq<Happening>)
    requires PacketSessionsOnly(l)
    ensures
      var ids := Opened(l, hs);
      var end := Bill(l, hs);
      && PacketSessionsOnly(end)
      && (forall k :: k in end.sessions <==> k in l.sessions || k in ids)
      && (NoRepeats(ids) && (forall k :: k in ids ==> k !in l.sessions) ==> |end.sessions| == |l.sessions| + |ids|)
    decreases |hs|
  {
    if hs != [] {
      var before, h := hs[..|hs| - 1], hs[|hs| - 1];
      GrantedPacketsLeaveSessions(l, before);
      var mid := Bill(l, before);
      PacketOpensOne(mid, h);
      ServeKeepsSessions(mid, h);
      var ids := Opened(l, before);
      if Opened(l, hs) != ids {
        CountOneMore(l, mid, Bill(l, hs), ids, PacketSession(h.imsi, h.stamp));
      } else {
        SameCount(mid, Bill(l, hs));
      }
    }
  }

  lemma SameCount(mid: Ledger, end: Ledger)
    requires end.sessions.Keys == mid.sessions.Keys
    ensures |end.sessions| == |mid.sessions|
  {
    assert |end.sessions.Keys| == |end.sessions| && |mid.sessions.Keys| == |mid.sessions|;
  }

  lemma CountOneMore(l: Ledger, mid: Ledger, end: Ledger, ids: seq<string>, id: string)
    requires end.sessions.Keys == mid.sessions.Keys + {id}
    requires forall k :: k in mid.sessions <==> k in l.sessions || k in ids
    requires NoRepeats(ids) && (forall k :: k in ids ==> k !in l.sessions) ==> |mid.sessions| == |l.sessions| + |ids|
    ensures
      var more := ids + [id];
      NoRepeats(more) && (forall k :: k in more ==> k !in l.sessions) ==> |end.sessions| == |l.sessions| + |more|
  {
    var more := ids + [id];
    if NoRepeats(more) && (forall k :: k in more ==> k !in l.sessions) {
      assert forall i :: 0 <= i < |ids| ==> more[i] == ids[i];
      assert more[|ids|] == id;
      assert id !in mid.sessions.Keys;
      assert |end.sessions.Keys| == |end.sessions| && |mid.sessions.Keys| == |mid.sessions|;
    }
  }
}
