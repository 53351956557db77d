/** The gateway and the charging engine together: what a subscriber gets for its balance. */
module EndToEnd {
  import opened Numbers
  import opened Ocs
  import opened OcsEngine
  import opened Pcef
  import opened Billing
  import OcsGy
  import OcsMachine
  import OcsConservation
  import Sums
  import LruModel
  import LruRuns

  /** A frame of this subscriber, as the billing run sees it. */
  function AsPacket(imsi: string, f: Frame, stamp: string): Happening {
    Packet(imsi, ToUint64(f.payloadSizeBytes), if Streaming(f.destinationHost) then 2 else 4, stamp)
  }

  /** Serving a frame bills exactly its packet. */
  lemma FrameIsPacket(l: Ledger, imsi: string, f: Frame, stamp: string)
    requires imsi != ""
    ensures Decode(ChargeFor(imsi, f, stamp)) == RequestFor(AsPacket(imsi, f, stamp))
    ensures Respond(l, ChargeFor(imsi, f, stamp)).0 == Bill(l, [AsPacket(imsi, f, stamp)])
    ensures
      var (after, reply) := Serve(l, RequestFor(AsPacket(imsi, f, stamp)));
      Respond(l, ChargeFor(imsi, f, stamp)) == (after, Answer(reply.code, reply.granted))
  {
    assert PacketSession(imsi, stamp) != "" by {
      assert |PacketSession(imsi, stamp)| >= 5;
    }
    assert [AsPacket(imsi, f, stamp)][..0] == [];
  }

  lemma VerdictFollowsAnswer(isActive: bool, f: Frame, code: nat, granted: uint64)
    ensures
      var verdict := Nested(isActive, f, Answer(code, granted));
      && (verdict.Throttle? <==> code == CREDIT_LIMIT_REACHED)
      && (verdict.Throttle? ==> verdict == Throttle(65_536))
      && (verdict.Failed? <==>
            code != CREDIT_LIMIT_REACHED
            && (!isActive || (Streaming(f.destinationHost) && f.payloadSizeBytes <= 1024)))
  {
  }

  /** The end-to-end rule: after any packets and evictions a charged subscriber's next frame is throttled
      exactly if its earlier packets used up the opening balance, and otherwise gets the verdict of its host,
      size and state. Either way its balance goes down by its bytes, but never below zero. */
  lemma VerdictFollowsBalance(a: string, isActive: bool, l: Ledger, hs: seq<Happening>, f: Frame, stamp: string)
    requires a in l.accounts && a != "" && PacketSessionsOnly(l)
    ensures
      var (after, answer) := Respond(Bill(l, hs), ChargeFor(a, f, stamp));
      var verdict := Nested(isActive, f, answer);
      && (verdict.Throttle? <==> Bytes(a, hs) >= l.accounts[a].total)
      && (verdict.Throttle? ==> verdict == Throttle(65_536))
      && (verdict.Failed? <==>
            Bytes(a, hs) < l.accounts[a].total
            && (!isActive || (Streaming(f.destinationHost) && f.payloadSizeBytes <= 1024)))
      && a in after.accounts
      && after.accounts[a].total == Max(0, l.accounts[a].total - Bytes(a, hs) - ToUint64(f.payloadSizeBytes))
      && (0 <= f.payloadSizeBytes < 0x8000_0000_0000_0000 ==>
            after.accounts[a].total == Max(0, l.accounts[a].total - Bytes(a, hs) - f.payloadSizeBytes))
  {
    hide Bill, Bytes, Respond, Serve, Nested, Streaming, PacketSessionsOnly;
    var before := Bill(l, hs);
    var p := AsPacket(a, f, stamp);
    FrameIsPacket(before, a, f, stamp);
    ThrottledIffExhausted(a, l, hs, p);
    BalanceIsOpeningLessBytes(a, l, hs);
    PacketIsCharged(before, p);
    var reply := Serve(before, RequestFor(p)).1;
    VerdictFollowsAnswer(isActive, f, reply.code, reply.granted);
  }

  /** A size below zero is read as a huge one: it takes whatever is left of the balance. */
  lemma NegativeSizeEmptiesBalance(a: string, l: Ledger, f: Frame, stamp: string)
    requires a in l.accounts && a != "" && PacketSessionsOnly(l)
    requires -0x8000_0000_0000_0000 <= f.payloadSizeBytes < 0
    requires l.accounts[a].total <= 0x8000_0000_0000_0000
    ensures a in Respond(l, ChargeFor(a, f, stamp)).0.accounts
    ensures Respond(l, ChargeFor(a, f, stamp)).0.accounts[a].total == 0
  {
    VerdictFollowsBalance(a, true, l, [], f, stamp);
  }

  // ----- A stream of frames, as the gateway sends it

  /** A frame of a known subscriber, or a session that expired. */
  datatype Traffic = Sent(imsi: string, frame: Frame, stamp: string) | Expired(ip: string, stamp: string)

  /** The ledger after the stream, each item charged or reported as the gateway does it. */
  function RunTraffic(l: Ledger, ts: seq<Traffic>): Ledger {
    if ts == [] then l
    else
      var before := RunTraffic(l, ts[..|ts| - 1]);
      match ts[|ts| - 1]
      case Sent(imsi, f, stamp) => Respond(before, ChargeFor(imsi, f, stamp)).0
      case Expired(ip, stamp) =>
        Respond(before, CreditControlRequest("term_" + ip + "_" + stamp, "250010000000001", 0, 3, 0)).0
  }

  /** The payloads of one subscriber's frames, added up. */
  function Payloads(a: string, ts: seq<Traffic>): int {
    if ts == [] then 0
    else
      var t := ts[|ts| - 1];
      Payloads(a, ts[..|ts| - 1]) + if t.Sent? && t.imsi == a then t.frame.payloadSizeBytes else 0
  }

  predicate Sized(t: Traffic) {
    t.Sent? ==> 0 <= t.frame.payloadSizeBytes < 0x8000_0000_0000_0000
  }

  lemma SentCharges(a: string, l: Ledger, imsi: string, f: Frame, stamp: string)
    requires a in l.accounts && a != "" && PacketSessionsOnly(l)
    requires 0 <= f.payloadSizeBytes < 0x8000_0000_0000_0000
    ensures
      var after := Respond(l, ChargeFor(imsi, f, stamp)).0;
      && a in after.accounts && PacketSessionsOnly(after)
      && after.accounts[a].total ==
           if imsi == a then Max(0, l.accounts[a].total - f.payloadSizeBytes) else l.accounts[a].total
  {
    var charge := ChargeFor(imsi, f, stamp);
    ChargeInFigures(imsi, f, stamp);
    assert "sess_" <= charge.sessionId && charge.sessionId != "";
    OcsGy.RefusedInFigures(l, charge);
    if imsi != "" && imsi in l.accounts {
      OcsGy.UpdateInFigures(l, charge);
    }
    hide Respond, ChargeFor;
  }

  lemma ExpiryChangesNothing(l: Ledger, ip: string, stamp: string)
    requires PacketSessionsOnly(l)
    ensures Respond(l, CreditControlRequest("term_" + ip + "_" + stamp, "250010000000001", 0, 3, 0)).0 == l
  {
    EvictionIsNoPacket(ip, stamp);
  }

  /** After any stream of frames of any subscribers, with sessions expiring in between, a balance is its opening
      balance less the payloads of its subscriber's frames, but never below zero. */
  lemma {:induction false} TrafficCostsItsPayload(a: string, l: Ledger, ts: seq<Traffic>)
    requires a in l.accounts && a != "" && PacketSessionsOnly(l) && forall t :: t in ts ==> Sized(t)
    ensures
      var end := RunTraffic(l, ts);
      && a in end.accounts && PacketSessionsOnly(end) && Payloads(a, ts) >= 0
      && end.accounts[a].total == Max(0, l.accounts[a].total - Payloads(a, ts))
    decreases |ts|
  {
    hide Respond, PacketSessionsOnly;
    if ts != [] {
      var before, t := ts[..|ts| - 1], ts[|ts| - 1];
      assert Sized(t);
      TrafficCostsItsPayload(a, l, before);
      match t
      case Sent(imsi, f, stamp) => SentCharges(a, RunTraffic(l, before), imsi, f, stamp);
      case Expired(ip, stamp) => ExpiryChangesNothing(RunTraffic(l, before), ip, stamp);
    }
  }

  lemma ChargeIsAnswered(l: Ledger, a: string, f: Frame, stamp: string)
    requires a in l.accounts && a != "" && 0 <= f.payloadSizeBytes < 0x8000_0000_0000_0000
    ensures
      var answer := Respond(l, ChargeFor(a, f, stamp)).1;
      answer.Answer? && answer.resultCode == if l.accounts[a].total == 0 then 4012 else 2001
  {
    var charge := ChargeFor(a, f, stamp);
    ChargeInFigures(a, f, stamp);
    assert "sess_" <= charge.sessionId && charge.sessionId != "";
    OcsGy.UpdateInFigures(l, charge);
  }

  /** And its next frame is throttled to 64 kbit/s exactly if the payloads so far used up the opening balance;
      otherwise host, size and state decide. */
  lemma NextFrameFollowsPayloads(a: string, isActive: bool, l: Ledger, ts: seq<Traffic>, f: Frame, stamp: string)
    requires a in l.accounts && a != "" && PacketSessionsOnly(l) && forall t :: t in ts ==> Sized(t)
    requires 0 <= f.payloadSizeBytes < 0x8000_0000_0000_0000
    ensures
      var host, small := f.destinationHost, f.payloadSizeBytes <= 1024;
      var streaming := host == "youtube.com" || host == "netflix.com";
      Nested(isActive, f, Respond(RunTraffic(l, ts), ChargeFor(a, f, stamp)).1) ==
        if Payloads(a, ts) >= l.accounts[a].total then Throttle(65_536)
        else if isActive && streaming && !small then Allow(52_428_800)
        else if isActive && !streaming && small then Allow(104_857_600)
        else if isActive && !streaming then Allow(10_485_760)
        else Failed
  {
    hide Respond, RunTraffic, Payloads, ChargeFor, Nested, PacketSessionsOnly;
    TrafficCostsItsPayload(a, l, ts);
    ChargeIsAnswered(RunTraffic(l, ts), a, f, stamp);
    var answer := Respond(RunTraffic(l, ts), ChargeFor(a, f, stamp)).1;
    VerdictInFigures(isActive, f, answer.resultCode, answer.grantedBytes);
  }

  // ----- The gateway's own concurrent traffic

  /** A request some packet or eviction stands behind. */
  ghost predicate FromGateway(r: Request) {
    exists h :: r == RequestFor(h)
  }

  lemma GatewayIdsApart(a: string, r: Request)
    requires FromGateway(r)
    ensures OcsConservation.Apart(a, id => !("sess_" <= id), r)
  {
    var h :| r == RequestFor(h);
    if h.Eviction? {
      EvictionIsNoPacket(h.ip, h.stamp);
    }
  }

  /** Packets and evictions from any number of threads in any interleaving: no byte of any account is lost or
      made, the one the eviction callback names included. */
  lemma GatewayTrafficConserves(a: string, ledger: Ledger, es: seq<OcsMachine.Event>)
    requires a in ledger.accounts && PacketSessionsOnly(ledger)
    requires ledger.accounts[a].total + ledger.accounts[a].reserved < TWO_64
    requires forall e :: e in es && e.Call? ==> FromGateway(e.request)
    ensures
      var start := ledger.accounts[a];
      var s0 := OcsMachine.State(ledger, []);
      var s := OcsMachine.Exec(s0, es);
      && a in s.ledger.accounts
      && var now := s.ledger.accounts[a];
      && now.total + Sums.Sum(s.threads, OcsConservation.Granted(a)) == start.total
      && now.total + now.reserved + Sums.Sum(s.threads, OcsConservation.InFlight(a))
         + OcsConservation.Spent(a, s0, es) == start.total + start.reserved
  {
    var barred := id => !("sess_" <= id);
    forall e | e in es && e.Call?
      ensures OcsConservation.Apart(a, barred, e.request)
    {
      GatewayIdsApart(a, e.request);
    }
    OcsConservation.ApartIdsNeverRefund(a, barred, OcsMachine.State(ledger, []), es);
    OcsConservation.ConservationWithoutRefunds(a, ledger, es);
  }

  // ----- Thirty-two shards as one map

  /** The operations that go to one shard. */
  ghost function Route<V>(hash: string -> nat, ops: seq<LruRuns.Op<V>>, i: nat): seq<LruRuns.Op<V>> {
    if ops == [] then []
    else
      var op := ops[|ops| - 1];
      Route(hash, ops[..|ops| - 1], i) + if hash(op.key) % SHARDS == i then [op] else []
  }

  /** Every shard after a run in which each operation goes to the shard of its key. */
  ghost function RunShards<V>(hash: string -> nat, capacity: nat, nothing: V, ops: seq<LruRuns.Op<V>>)
    : (shards: seq<LruModel.Cache<V>>)
    requires capacity >= 2
    ensures |shards| == SHARDS && forall i :: 0 <= i < SHARDS ==> LruRuns.Tidy(shards[i])
  {
    if ops == [] then
      LruRuns.NewTidy(capacity, nothing);
      seq(SHARDS, _ => LruModel.New(capacity, nothing))
    else
      var shards := RunShards(hash, capacity, nothing, ops[..|ops| - 1]);
      var op := ops[|ops| - 1];
      var i := hash(op.key) % SHARDS;
      LruRuns.ApplyTidy(shards[i], op);
      shards[i := LruRuns.Apply(shards[i], op)]
  }

  lemma {:induction false} ShardSeesItsRoute<V>(hash: string -> nat, capacity: nat, nothing: V,
                                                ops: seq<LruRuns.Op<V>>, i: nat)
    requires capacity >= 2 && i < SHARDS
    ensures RunShards(hash, capacity, nothing, ops)[i] == LruRuns.Run(capacity, nothing, Route(hash, ops, i))
    decreases |ops|
  {
    if ops != [] {
      var before, op := ops[..|ops| - 1], ops[|ops| - 1];
      ShardSeesItsRoute(hash, capacity, nothing, before, i);
      if hash(op.key) % SHARDS == i {
        assert Route(hash, ops, i)[..|Route(hash, ops, i)| - 1] == Route(hash, before, i);
      } else {
        assert Route(hash, ops, i) == Route(hash, before, i);
      }
    }
  }

  /** A route grows by the operations of its own shard. */
  lemma RouteGrows<V>(hash: string -> nat, before: seq<LruRuns.Op<V>>, op: LruRuns.Op<V>, i: nat)
    ensures Route(hash, before + [op], i) == Route(hash, before, i) + if hash(op.key) % SHARDS == i then [op] else []
  {
    assert (before + [op])[..|before|] == before;
  }

  lemma LastSetGrows<V>(before: seq<LruRuns.Op<V>>, op: LruRuns.Op<V>, key: string)
    ensures LruRuns.LastSet(before + [op], key)
         == if op.SetOp? && op.key == key then LruModel.Some(op.value) else LruRuns.LastSet(before, key)
  {
    assert (before + [op])[..|before|] == before;
  }

  lemma {:induction false} RouteKeepsLastSet<V>(hash: string -> nat, ops: seq<LruRuns.Op<V>>, key: string)
    ensures LruRuns.LastSet(Route(hash, ops, hash(key) % SHARDS), key) == LruRuns.LastSet(ops, key)
    decreases |ops|
  {
    if ops != [] {
      hide Route, LruRuns.LastSet;
      var before, op, i := ops[..|ops| - 1], ops[|ops| - 1], hash(key) % SHARDS;
      assert ops == before + [op];
      RouteKeepsLastSet(hash, before, key);
      RouteGrows(hash, before, op, i);
      LastSetGrows(before, op, key);
      if hash(op.key) % SHARDS == i {
        LastSetGrows(Route(hash, before, i), op, key);
      } else {
        assert Route(hash, ops, i) == Route(hash, before, i);
      }
    }
  }

  /** Whatever the hash, the shards together are one flat map: a lookup in the shard of a key finds the value
      last Set for that key anywhere in the run, and nothing for a key never Set. */
  lemma ShardsActAsOneMap<V>(hash: string -> nat, capacity: nat, nothing: V, ops: seq<LruRuns.Op<V>>, key: string)
    requires capacity >= 2
    ensures LruModel.Lookup(RunShards(hash, capacity, nothing, ops)[hash(key) % SHARDS], key)
         == LruRuns.LastSet(ops, key)
  {
    var i := hash(key) % SHARDS;
    ShardSeesItsRoute(hash, capacity, nothing, ops, i);
    LruRuns.CacheIsMapWithRecency(capacity, nothing, Route(hash, ops, i));
    RouteKeepsLastSet(hash, ops, key);
  }
}
