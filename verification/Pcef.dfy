/** The packet gateway: thirty-two session caches, the dispatcher and the charging client. */
module Pcef {
  import opened Ocs
  import opened OcsEngine
  import opened Dispatch
  import opened LruModel
  import opened LruCache
  import LruRuns
  import OcsGy
  import Billing

  const STATE_ACTIVE: bv64 := 1
  const TRAFFIC_STREAMING: bv64 := 2
  const TRAFFIC_SOCIAL: bv64 := 4
  const PACK_SMALL: bv64 := 8
  const PACK_HEAVY: bv64 := 16

  const SHARDS: nat := 32
  const CAPACITY: nat := 5000
  const IDLE_TIMEOUT: int := 60_000_000_000

  const RANGES: seq<RangeConfig> := [RangeConfig(1024, PACK_SMALL), RangeConfig(999999999999, PACK_HEAVY)]

  const POLICIES: map<Mask, Policy> :=
    map[Mask(STATE_ACTIVE | TRAFFIC_STREAMING | PACK_HEAVY) := SetBandwidth(50 * 1024 * 1024),
        Mask(STATE_ACTIVE | TRAFFIC_SOCIAL | PACK_SMALL) := SetBandwidth(100 * 1024 * 1024),
        Mask(STATE_ACTIVE | TRAFFIC_SOCIAL | PACK_HEAVY) := SetBandwidth(10 * 1024 * 1024)]

  const SIGNATURES: map<string, bv64> :=
    map["youtube.com" := TRAFFIC_STREAMING, "netflix.com" := TRAFFIC_STREAMING,
        "telegram.org" := TRAFFIC_SOCIAL, "whatsapp.com" := TRAFFIC_SOCIAL]

  datatype Frame = Frame(sourceIp: string, destinationHost: string, payloadSizeBytes: int)

  datatype Verdict = Drop | Throttle(bandwidth: int) | Allow(bandwidth: int) | Failed

  /** The 64-bit reading of a signed size. */
  function ToUint64(size: int): uint64 {
    size % TWO_64
  }

  predicate Streaming(host: string) {
    host == "youtube.com" || host == "netflix.com"
  }

  /** The request a packet of this subscriber is charged by. */
  function ChargeFor(imsi: string, f: Frame, stamp: string): CreditControlRequest {
    CreditControlRequest(Billing.PacketSession(imsi, stamp), imsi, if Streaming(f.destinationHost) then 2 else 4, 2,
                         ToUint64(f.payloadSizeBytes))
  }

  /** The verdict on a known subscriber's packet as one nested conditional over host, size and answer. */
  function Nested(isActive: bool, f: Frame, answer: CreditControlAnswer): Verdict {
    if answer == InvalidArgument || answer.resultCode == CREDIT_LIMIT_REACHED then Throttle(64 * 1024)
    else if !isActive then Failed
    else if Streaming(f.destinationHost) then
      if f.payloadSizeBytes <= 1024 then Failed else Allow(50 * 1024 * 1024)
    else if f.payloadSizeBytes <= 1024 then Allow(100 * 1024 * 1024) else Allow(10 * 1024 * 1024)
  }

  /** The mask the pipeline builds, and what the registry holds for it. */
  function Composite(isActive: bool, traffic: bv64, size: bv64): Mask {
    Mask((if isActive then STATE_ACTIVE else 0) | traffic | size)
  }

  function Traffic(host: string): bv64 {
    if host in SIGNATURES then SIGNATURES[host] else TRAFFIC_SOCIAL
  }

  lemma TrafficIsStreaming(host: string)
    ensures Traffic(host) == if Streaming(host) then TRAFFIC_STREAMING else TRAFFIC_SOCIAL
  {
    assert "youtube.com"[0] == 'y' && "netflix.com"[0] == 'n' && "telegram.org"[0] == 't' && "whatsapp.com"[0] == 'w';
  }

  lemma MaskValues()
    ensures Composite(true, TRAFFIC_STREAMING, PACK_HEAVY) == Mask(19)
    ensures Composite(true, TRAFFIC_STREAMING, PACK_SMALL) == Mask(11)
    ensures Composite(true, TRAFFIC_SOCIAL, PACK_HEAVY) == Mask(21)
    ensures Composite(true, TRAFFIC_SOCIAL, PACK_SMALL) == Mask(13)
    ensures Composite(false, TRAFFIC_STREAMING, PACK_HEAVY) == Mask(18)
    ensures Composite(false, TRAFFIC_STREAMING, PACK_SMALL) == Mask(10)
    ensures Composite(false, TRAFFIC_SOCIAL, PACK_HEAVY) == Mask(20)
    ensures Composite(false, TRAFFIC_SOCIAL, PACK_SMALL) == Mask(12)
    ensures POLICIES == map[Mask(19) := SetBandwidth(50 * 1024 * 1024), Mask(13) := SetBandwidth(100 * 1024 * 1024),
                            Mask(21) := SetBandwidth(10 * 1024 * 1024)]
  {
  }

  lemma RangeValue(size: int)
    ensures Cascade(RANGES, size) == if size <= 1024 then PACK_SMALL else PACK_HEAVY
  {
    assert RANGES[1..] == [RangeConfig(999999999999, PACK_HEAVY)];
  }

  /** The registry answers every mask the pipeline builds as the nested conditional does. */
  lemma RegistryIsNested(isActive: bool, f: Frame, answer: CreditControlAnswer)
    requires answer.Answer? && answer.resultCode != CREDIT_LIMIT_REACHED
    ensures
      var mask := Composite(isActive, Traffic(f.destinationHost), Cascade(RANGES, f.payloadSizeBytes));
      Nested(isActive, f, answer) == if mask in POLICIES then Allow(POLICIES[mask].bandwidth) else Failed
  {
    TrafficIsStreaming(f.destinationHost);
    RangeValue(f.payloadSizeBytes);
    MaskValues();
  }

  /** The charge of a packet, in figures: its size, read as an unsigned number. */
  lemma ChargeInFigures(imsi: string, f: Frame, stamp: string)
    requires -0x8000_0000_0000_0000 <= f.payloadSizeBytes < 0x8000_0000_0000_0000
    ensures
      var host, size := f.destinationHost, f.payloadSizeBytes;
      ChargeFor(imsi, f, stamp) ==
        CreditControlRequest("sess_" + imsi + "_" + stamp, imsi,
                             if host == "youtube.com" || host == "netflix.com" then 2 else 4, 2,
                             if size >= 0 then size else 0x1_0000_0000_0000_0000 + size)
  {
  }

  /** A charged packet costs its subscriber its payload, as far as the balance goes. */
  lemma ChargeTakesSize(l: Ledger, imsi: string, f: Frame, stamp: string)
    requires imsi != "" && imsi in l.accounts && 0 <= f.payloadSizeBytes < 0x8000_0000_0000_0000
    ensures
      var was, after := l.accounts[imsi].total, Respond(l, ChargeFor(imsi, f, stamp)).0;
      imsi in after.accounts
      && after.accounts[imsi].total == if was < f.payloadSizeBytes then 0 else was - f.payloadSizeBytes
  {
    var charge := ChargeFor(imsi, f, stamp);
    ChargeInFigures(imsi, f, stamp);
    assert charge.sessionId != "" by {
      assert |charge.sessionId| >= 5;
    }
    OcsGy.UpdateInFigures(l, charge);
    hide Respond;
  }

  /** The verdict on a packet, in figures: bandwidths in bits per second, sizes in bytes. */
  lemma VerdictInFigures(isActive: bool, f: Frame, code: nat, granted: uint64)
    ensures
      var host, small := f.destinationHost, f.payloadSizeBytes <= 1024;
      var streaming := host == "youtube.com" || host == "netflix.com";
      Nested(isActive, f, Answer(code, granted)) ==
        if code == 4012 then Throttle(65_536)
        else if isActive && streaming && !small then Allow(52_428_800)
        else if isActive && !streaming && small then Allow(104_857_600)
        else if isActive && !streaming then Allow(10_485_760)
        else Failed
    ensures Nested(isActive, f, InvalidArgument) == Throttle(65_536)
  {
  }

  /** One shard: a session cache, and as a value the sessions it can find. */
  class CoreShard {
    const lru: ReactiveLruCache
    ghost var known: map<string, SubscriberSession>

    /** Nothing was evicted, and a lookup finds exactly the known sessions. */
    ghost predicate Valid()
      reads this, lru, lru.repr
    {
      && lru.Valid() && LruRuns.Tidy(lru.view) && Knows(lru.view, known)
    }

    constructor ()
      ensures Valid() && fresh(lru) && fresh(lru.repr) && known == map[]
      ensures lru.capacity == 5000 && lru.idleTimeout == 60_000_000_000 && lru.view == New(5000, null)
    {
      lru := new ReactiveLruCache(CAPACITY, IDLE_TIMEOUT);
      known := map[];
      new;
      LruRuns.NewTidy<object?>(CAPACITY, null);
    }

    method Register(ip: string, session: SubscriberSession, now: int)
      requires Valid()
      modifies this, lru, lru.repr
      ensures Valid() && old(lru.repr) <= lru.repr && fresh(lru.repr - old(lru.repr))
      ensures known == old(known)[ip := session]
      ensures lru.view == Set(old(lru.view), ip, session, now)
    {
      hide Set, Keys, Distinct, Knows;
      KnowsAfterSet(lru.view, known, ip, session, now);
      Admit(ip, session, now);
      known := known[ip := session];
    }

    /** Set on an agreeing cache. */
    method Admit(ip: string, session: SubscriberSession, now: int)
      requires lru.Valid()
      modifies lru, lru.repr
      ensures old(lru.repr) <= lru.repr && fresh(lru.repr - old(lru.repr))
      ensures lru.view == Set(old(lru.view), ip, session, now)
      ensures Agrees(lru.view) ==> lru.Valid()
    {
      lru.ValidIsSound();
      hide Set, Touch, Recycle, Grow, Keys, Distinct, Agrees, Reusable, ReactiveLruCache.Sound;
      hide ReactiveLruCache.Consistent;
      lru.Set(ip, session, now);
    }

    /** Get on an agreeing cache. */
    method Consult(ip: string, now: int) returns (value: object?, found: bool)
      requires lru.Valid()
      modifies lru, lru.repr
      ensures lru.Valid() && lru.repr == old(lru.repr) && lru.view == Get(old(lru.view), ip, now)
      ensures found <==> ip in old(lru.view).index
      ensures found ==> Lookup(old(lru.view), ip) == Some(value)
    {
      lru.ValidIsSound();
      hide Get, Touch, Keys, Distinct, Agrees, ReactiveLruCache.Sound;
      value, found := lru.Get(ip, now);
    }

    method Find(ip: string, now: int) returns (session: SubscriberSession?)
      requires Valid()
      modifies lru, lru.repr
      ensures Valid() && lru.repr == old(lru.repr)
      ensures session == if ip in known then known[ip] else null
      ensures lru.view == Get(old(lru.view), ip, now)
    {
      hide Get, Keys, Distinct;
      KnowsAfterGet(lru.view, known, ip, now);
      var value: object?, found: bool := Consult(ip, now);
      if !found {
        return null;
      }
      session := value as SubscriberSession;
    }
  }

  /** A lookup in the cache finds the known sessions and nothing else. */
  ghost predicate Knows(c: Cache<object?>, known: map<string, SubscriberSession>)
    requires Agrees(c)
  {
    && c.index == known.Keys
    && forall k :: k in known ==> Lookup(c, k) == Some(known[k] as object?)
  }

  lemma KnowsAfterSet(c: Cache<object?>, known: map<string, SubscriberSession>, ip: string,
                      session: SubscriberSession, now: int)
    requires LruRuns.Tidy(c) && Knows(c, known)
    ensures
      var d := Set(c, ip, session as object?, now);
      LruRuns.Tidy(d) && Knows(d, known[ip := session])
  {
    hide Keys, Distinct;
    var op := LruRuns.SetOp(ip, session as object?, now);
    LruRuns.ApplyTidy(c, op);
    var d := LruRuns.Apply(c, op);
    forall k
      ensures Lookup(d, k) == if k == ip then Some(session as object?) else Lookup(c, k)
    {
      LruRuns.ApplyLookup(c, op, k);
    }
    forall k
      ensures k in d.index <==> k in known[ip := session]
    {
      assert k in d.index <==> Lookup(d, k).Some?;
    }
  }

  lemma KnowsAfterGet(c: Cache<object?>, known: map<string, SubscriberSession>, ip: string, now: int)
    requires LruRuns.Tidy(c) && Knows(c, known)
    ensures LruRuns.Tidy(Get(c, ip, now)) && Knows(Get(c, ip, now), known)
  {
    var op: LruRuns.Op<object?> := LruRuns.GetOp(ip, now);
    LruRuns.ApplyTidy(c, op);
    forall k
      ensures Lookup(LruRuns.Apply(c, op), k) == Lookup(c, k)
    {
      LruRuns.ApplyLookup(c, op, k);
    }
    var d := LruRuns.Apply(c, op);
    forall k
      ensures k in d.index <==> k in known
    {
      assert k in d.index <==> Lookup(d, k).Some?;
    }
  }

  /** The size ranges and policies of a new gateway. */
  method BootstrapDispatcher() returns (engine: TableDrivenEngine)
    ensures fresh(engine) && engine.rangeBounds == RANGES && engine.registry == POLICIES
    ensures engine.rangeBounds == [RangeConfig(1024, 8), RangeConfig(999_999_999_999, 16)]
    ensures engine.registry == map[Mask(19) := SetBandwidth(52_428_800), Mask(13) := SetBandwidth(104_857_600),
                                   Mask(21) := SetBandwidth(10_485_760)]
  {
    MaskValues();
    engine := new TableDrivenEngine();
    engine.AddRangeConfig(1024, PACK_SMALL);
    engine.AddRangeConfig(999999999999, PACK_HEAVY);
    assert multiset(engine.rangeBounds) == multiset(RANGES);
    SortedTableIsUnique(RANGES, engine.rangeBounds);
    engine.RegisterAction(Mask(STATE_ACTIVE | TRAFFIC_STREAMING | PACK_HEAVY), SetBandwidth(50 * 1024 * 1024));
    engine.RegisterAction(Mask(STATE_ACTIVE | TRAFFIC_SOCIAL | PACK_SMALL), SetBandwidth(100 * 1024 * 1024));
    engine.RegisterAction(Mask(STATE_ACTIVE | TRAFFIC_SOCIAL | PACK_HEAVY), SetBandwidth(10 * 1024 * 1024));
  }

  /** The shards are distinct, have these caches, and share no node. */
  ghost predicate Separate(shards: seq<CoreShard>, caches: seq<ReactiveLruCache>, nodes: set<Node>)
    reads caches
  {
    && |caches| == |shards|
    && (forall i :: 0 <= i < |shards| ==> shards[i].lru == caches[i] && caches[i].repr <= nodes)
    && (forall i, j :: 0 <= i < j < |shards| ==>
          shards[i] != shards[j] && caches[i] != caches[j] && caches[i].repr !! caches[j].repr)
  }

  /** A shard's cache when the gateway starts: five thousand free nodes, sessions idle after a minute. */
  ghost predicate AsBuilt(cache: ReactiveLruCache)
    reads cache
  {
    cache.capacity == 5000 && cache.idleTimeout == 60_000_000_000 && cache.view == New(5000, null)
  }

  method NewShards() returns (shards: seq<CoreShard>, ghost caches: seq<ReactiveLruCache>, ghost nodes: set<Node>)
    ensures |shards| == SHARDS && Separate(shards, caches, nodes)
    ensures fresh(nodes) && fresh(shards) && fresh(caches)
    ensures forall i :: 0 <= i < SHARDS ==> shards[i].Valid() && shards[i].known == map[]
    ensures forall i :: 0 <= i < SHARDS ==> AsBuilt(caches[i])
  {
    hide CoreShard.Valid;
    shards, caches, nodes := [], [], {};
    for n := 0 to SHARDS
      invariant |shards| == n && Separate(shards, caches, nodes) && fresh(nodes) && fresh(shards) && fresh(caches)
      invariant forall i :: 0 <= i < n ==> shards[i].Valid() && shards[i].known == map[]
      invariant forall i :: 0 <= i < n ==> AsBuilt(caches[i])
    {
      var shard := new CoreShard();
      shards, caches, nodes := shards + [shard], caches + [shard.lru], nodes + shard.lru.repr;
    }
  }

  class PcefCoreService {
    const hash: string -> nat
    const shards: seq<CoreShard>
    const dispatchEngine: TableDrivenEngine
    const ocsClient: GrpcHandler
    ghost const caches: seq<ReactiveLruCache>
    ghost var nodes: set<Node>

    function Index(ip: string): (i: nat)
      ensures i < SHARDS
    {
      hash(ip) % SHARDS
    }

    ghost predicate Valid()
      reads this, shards, caches, nodes, dispatchEngine, ocsClient.service
    {
      && |shards| == SHARDS && Separate(shards, caches, nodes)
      && (forall i :: 0 <= i < SHARDS ==> shards[i].Valid())
      && dispatchEngine.rangeBounds == RANGES && dispatchEngine.registry == POLICIES
      && ocsClient.service.Valid()
    }

    /** What the thirty-two shards, taken as one map, hold for an address. */
    ghost function Known(ip: string): SubscriberSession?
      requires |shards| == SHARDS
      reads shards
    {
      var known := shards[Index(ip)].known;
      if ip in known then known[ip] else null
    }

    constructor (hash: string -> nat, ocsClient: GrpcHandler)
      requires ocsClient.service.Valid()
      ensures Valid() && fresh(nodes) && fresh(shards) && fresh(dispatchEngine) && this.ocsClient == ocsClient
      ensures forall k :: Known(k) == null
      ensures this.hash == hash && |shards| == |caches| == 32 && forall i :: 0 <= i < 32 ==> AsBuilt(caches[i])
    {
      var engine := BootstrapDispatcher();
      var newShards, newCaches, newNodes := NewShards();
      this.hash, this.ocsClient, shards, dispatchEngine := hash, ocsClient, newShards, engine;
      caches, nodes := newCaches, newNodes;
    }

    /** Registering changes the flat map at one address and nowhere else. */
    method RegisterSubscriber(imsi: string, ip: string, tariff: string, now: int)
      requires Valid()
      modifies this`nodes, shards, caches, nodes
      ensures Valid() && fresh(nodes - old(nodes))
      ensures
        var session := Known(ip);
        && session != null && fresh(session)
        && session.imsi == imsi && session.ip == ip && session.tariffClass == tariff
        && session.isActive && session.currentBandwidth == 100 * 1024 * 1024
      ensures forall k :: k != ip ==> Known(k) == old(Known(k))
      ensures forall j :: 0 <= j < SHARDS ==>
        caches[j].view == if j == hash(ip) % 32 then Set(old(caches[j].view), ip, Known(ip), now)
                          else old(caches[j].view)
    {
      hide CoreShard.Valid;
      var sess := new SubscriberSession(imsi, ip, tariff, true, 100 * 1024 * 1024);
      StoreSession(ip, sess, now);
    }

    method StoreSession(ip: string, sess: SubscriberSession, now: int)
      requires Valid()
      modifies this`nodes, shards, caches, nodes
      ensures Valid() && fresh(nodes - old(nodes))
      ensures forall k :: Known(k) == if k == ip then sess else old(Known(k))
      ensures forall j :: 0 <= j < SHARDS ==>
        caches[j].view == if j == hash(ip) % 32 then Set(old(caches[j].view), ip, sess, now) else old(caches[j].view)
    {
      hide CoreShard.Valid, Set, Keys, Distinct;
      var idx := Index(ip);
      shards[idx].Register(ip, sess, now);
      nodes := nodes + caches[idx].repr;
    }

    /** The session an address belongs to, as a set. */
    ghost function Owner(ip: string): set<SubscriberSession>
      requires |shards| == SHARDS
      reads shards
    {
      if Known(ip) == null then {} else {Known(ip)}
    }

    /** Look a packet's session up; the flat map stays as it is. */
    method FindSession(ip: string, now: int) returns (session: SubscriberSession?)
      requires Valid()
      modifies caches, nodes
      ensures Valid()
      ensures session == Known(ip)
      ensures forall j :: 0 <= j < SHARDS ==>
        caches[j].view == if j == hash(ip) % 32 then Get(old(caches[j].view), ip, now) else old(caches[j].view)
    {
      hide CoreShard.Valid;
      session := shards[Index(ip)].Find(ip, now);
    }

    /** One packet. Unknown addresses are dropped; a known subscriber's packet is charged once, whatever
        becomes of it; the verdict is that of the nested conditional, whatever bandwidth the session had
        before; and an ALLOW hands out the bandwidth the session now has. */
    method ProcessPacket(f: Frame, now: int, stamp: string) returns (verdict: Verdict)
      requires Valid()
      modifies caches, nodes, ocsClient.service`sessions, ocsClient.service.balances.Values
      modifies Owner(f.sourceIp)
      ensures Valid()
      ensures
        var session := Known(f.sourceIp);
        session == null ==> verdict == Drop && ocsClient.service.View() == old(ocsClient.service.View())
      ensures
        var session := Known(f.sourceIp);
        session != null ==>
          var (ledger, answer) := Respond(old(ocsClient.service.View()), ChargeFor(session.imsi, f, stamp));
          && ocsClient.service.View() == ledger
          && verdict == Nested(session.isActive, f, answer)
          && session.currentBandwidth == if verdict.Allow? then verdict.bandwidth else old(session.currentBandwidth)
      ensures
        var session, was, now :=
          Known(f.sourceIp), old(ocsClient.service.View()).accounts, ocsClient.service.View().accounts;
        session != null && session.imsi in was && session.imsi != ""
        && 0 <= f.payloadSizeBytes < 0x8000_0000_0000_0000 ==>
          session.imsi in now && now[session.imsi].total ==
            if was[session.imsi].total < f.payloadSizeBytes then 0 else was[session.imsi].total - f.payloadSizeBytes
      ensures forall j :: 0 <= j < SHARDS ==>
        caches[j].view == if j == hash(f.sourceIp) % 32 then Get(old(caches[j].view), f.sourceIp, now)
                          else old(caches[j].view)
    {
      hide CoreShard.Valid, Respond, Nested, ChargeFor, OcsService.View, OcsService.Valid;
      var session := FindSession(f.sourceIp, now);
      if session == null {
        return Drop;
      }
      verdict := ServePacket(session, f, stamp);
    }

    /** Charge the packet, then decide. */
    method ServePacket(session: SubscriberSession, f: Frame, stamp: string) returns (verdict: Verdict)
      requires Valid()
      modifies ocsClient.service`sessions, ocsClient.service.balances.Values, session`currentBandwidth
      ensures Valid()
      ensures
        var (ledger, answer) := Respond(old(ocsClient.service.View()), ChargeFor(session.imsi, f, stamp));
        && ocsClient.service.View() == ledger && verdict == Nested(session.isActive, f, answer)
      ensures
        var was, now := old(ocsClient.service.View()).accounts, ocsClient.service.View().accounts;
        session.imsi in was && session.imsi != "" && 0 <= f.payloadSizeBytes < 0x8000_0000_0000_0000 ==>
          session.imsi in now && now[session.imsi].total ==
            if was[session.imsi].total < f.payloadSizeBytes then 0 else was[session.imsi].total - f.payloadSizeBytes
      ensures session.currentBandwidth == if verdict.Allow? then verdict.bandwidth else old(session.currentBandwidth)
    {
      hide CoreShard.Valid, Separate, Respond, Nested, ChargeFor, OcsService.View, OcsService.Valid;
      ghost var l := ocsClient.service.View();
      if session.imsi in l.accounts && session.imsi != "" && 0 <= f.payloadSizeBytes < 0x8000_0000_0000_0000 {
        ChargeTakesSize(l, session.imsi, f, stamp);
      }
      var answer := ocsClient.RequestCreditControl(ChargeFor(session.imsi, f, stamp));
      verdict := Enforce(session, f, answer);
    }

    /** What a shard's cache calls for each session it evicts: a TERMINATE under a session id nobody opened. As
        long as the engine's sessions are those of packets, it changes nothing. */
    method OnEvict(ipKey: string, stamp: string)
      requires Valid()
      modifies ocsClient.service`sessions, ocsClient.service.balances.Values
      ensures Valid()
      ensures ocsClient.service.View() ==
        Respond(old(ocsClient.service.View()),
                CreditControlRequest("term_" + ipKey + "_" + stamp, "250010000000001", 0, 3, 0)).0
      ensures Billing.PacketSessionsOnly(old(ocsClient.service.View())) ==>
        ocsClient.service.View() == old(ocsClient.service.View())
    {
      hide CoreShard.Valid, Separate, OcsService.View, OcsService.Valid;
      if Billing.PacketSessionsOnly(ocsClient.service.View()) {
        Billing.EvictionChangesNothing(ocsClient.service.View(), ipKey, stamp);
      }
      var answer := ocsClient.RequestCreditControl(
        CreditControlRequest(Billing.EvictionSession(ipKey, stamp), Billing.CALLBACK_SUBSCRIBER, 0, 3, 0));
    }

    /** Mask, registry and policy, once the packet has been charged. */
    method Enforce(session: SubscriberSession, f: Frame, answer: CreditControlAnswer) returns (verdict: Verdict)
      requires dispatchEngine.rangeBounds == RANGES && dispatchEngine.registry == POLICIES
      modifies session`currentBandwidth
      ensures verdict == Nested(session.isActive, f, answer)
      ensures session.currentBandwidth == if verdict.Allow? then verdict.bandwidth else old(session.currentBandwidth)
    {
      var trafficBit := Traffic(f.destinationHost);
      assert Sorted(RANGES);
      var sizeBit := dispatchEngine.EvaluateRange(f.payloadSizeBytes);
      var bitmask := Composite(session.isActive, trafficBit, sizeBit);
      if answer == InvalidArgument || answer.resultCode == CREDIT_LIMIT_REACHED {
        return Throttle(64 * 1024);
      }
      RegistryIsNested(session.isActive, f, answer);
      var ok := dispatchEngine.Execute(bitmask, session);
      if !ok {
        return Failed;
      }
      return Allow(session.currentBandwidth);
    }
  }
}
