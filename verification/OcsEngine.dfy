/** The credit engine and its Gy front end as objects that change in place. Alone with its state, every
    method has exactly the effect of the operation in module Ocs; OcsMachine covers interleavings. */
module OcsEngine {
  import opened Numbers
  import opened Ocs

  const GIGABYTE: nat := 1024 * 1024 * 1024

  const VIP: string := "250010000000001"
  const BASE: string := "250010000000002"
  const EMPTY: string := "250010000000003"

  lemma DistinctNames()
    ensures VIP != BASE && BASE != EMPTY && VIP != EMPTY
  {
    assert VIP[14] == '1' && BASE[14] == '2' && EMPTY[14] == '3';
  }

  ghost function Credited(l: Ledger, subscriber: string, refund: uint64): Ledger
    requires subscriber in l.accounts
  {
    var a := l.accounts[subscriber];
    l.(accounts := l.accounts[subscriber := Account(Wrap(a.total + refund), a.reserved)])
  }

  ghost function Taken(l: Ledger, subscriber: string, granted: uint64): Ledger
    requires subscriber in l.accounts && granted <= l.accounts[subscriber].total
  {
    var a := l.accounts[subscriber];
    l.(accounts := l.accounts[subscriber := Account(a.total - granted, a.reserved)])
  }

  ghost function Held(l: Ledger, subscriber: string, granted: uint64): Ledger
    requires subscriber in l.accounts
  {
    var a := l.accounts[subscriber];
    l.(accounts := l.accounts[subscriber := Account(a.total, Wrap(a.reserved + granted))])
  }

  /** Reserve takes from the balance, adds to the reserve and stores the session. */
  lemma ReserveInSteps(l: Ledger, subscriber: string, session: string, chargingKey: nat, requested: uint64)
    requires subscriber in l.accounts && l.accounts[subscriber].total != 0
    ensures
      var granted := Min(requested, l.accounts[subscriber].total);
      var held := Held(Taken(l, subscriber, granted), subscriber, granted);
      Ocs.Reserve(l, subscriber, session, chargingKey, requested)
        == (held.(sessions := l.sessions[session := Session(subscriber, chargingKey, granted)]),
            Reply(granted, SUCCESS, false))
  {
    var granted := Min(requested, l.accounts[subscriber].total);
    assert Held(Taken(l, subscriber, granted), subscriber, granted).accounts
        == Ocs.Reserve(l, subscriber, session, chargingKey, requested).0.accounts;
  }

  /** Release pays back, clears the reservation and forgets the session. */
  lemma ReleaseInSteps(l: Ledger, subscriber: string, session: string, used: uint64)
    requires subscriber in l.accounts && session in l.sessions
    ensures
      var quota := l.sessions[session].quota;
      var cleared := Commit(Credited(l, subscriber, Refund(quota, used)), subscriber, quota);
      Ocs.Release(l, subscriber, session, used) == (cleared.(sessions := l.sessions - {session}), RELEASED)
  {
    var quota := l.sessions[session].quota;
    assert Commit(Credited(l, subscriber, Refund(quota, used)), subscriber, quota).accounts
        == Ocs.Release(l, subscriber, session, used).0.accounts;
  }

  class GyCreditState {
    var totalBalanceBytes: uint64
    var reservedBytes: uint64

    constructor (total: uint64)
      ensures totalBalanceBytes == total && reservedBytes == 0
    {
      totalBalanceBytes := total;
      reservedBytes := 0;
    }

    method CompareAndSwapTotal(expected: uint64, value: uint64) returns (swapped: bool)
      modifies this`totalBalanceBytes
      ensures swapped <==> old(totalBalanceBytes) == expected
      ensures totalBalanceBytes == if swapped then value else old(totalBalanceBytes)
    {
      swapped := totalBalanceBytes == expected;
      if swapped {
        totalBalanceBytes := value;
      }
    }

    method CompareAndSwapReserved(expected: uint64, value: uint64) returns (swapped: bool)
      modifies this`reservedBytes
      ensures swapped <==> old(reservedBytes) == expected
      ensures reservedBytes == if swapped then value else old(reservedBytes)
    {
      swapped := reservedBytes == expected;
      if swapped {
        reservedBytes := value;
      }
    }
  }

  class OcsService {
    var balances: map<string, GyCreditState>
    var sessions: map<string, Session>

    ghost predicate Valid()
      reads this
    {
      forall j, k :: j in balances && k in balances && j != k ==> balances[j] != balances[k]
    }

    ghost function View(): Ledger
      reads this, balances.Values
    {
      Ledger(map k | k in balances :: Account(balances[k].totalBalanceBytes, balances[k].reservedBytes), sessions)
    }

    /** The three accounts every new engine starts with. */
    constructor ()
      ensures Valid() && fresh(balances.Values)
      ensures View() == Ledger(map["250010000000001" := Account(107_374_182_400, 0),
                                   "250010000000002" := Account(5_368_709_120, 0),
                                   "250010000000003" := Account(0, 0)],
                               map[])
    {
      DistinctNames();
      var vip := new GyCreditState(100 * GIGABYTE);
      var base := new GyCreditState(5 * GIGABYTE);
      var empty := new GyCreditState(0);
      balances := map[VIP := vip, BASE := base, EMPTY := empty];
      sessions := map[];
      new;
      assert View().accounts == map[VIP := Account(100 * GIGABYTE, 0), BASE := Account(5 * GIGABYTE, 0),
                                    EMPTY := Account(0, 0)];
    }

    method Reserve(subscriber: string, session: string, chargingKey: nat, requested: uint64)
      returns (reply: Reply)
      requires Valid()
      modifies this`sessions, balances.Values
      ensures Valid()
      ensures (View(), reply) == old(Ocs.Reserve(View(), subscriber, session, chargingKey, requested))
    {
      hide Taken, Held;
      ghost var before := View();
      if subscriber !in balances {
        return REFUSED;
      }
      var granted, exhausted := Take(subscriber, requested);
      if exhausted {
        return GRANTED_NOTHING;
      }
      AddReserved(subscriber, granted);
      ghost var held := View();
      sessions := sessions[session := Session(subscriber, chargingKey, granted)];
      assert View().accounts == held.accounts;
      ReserveInSteps(before, subscriber, session, chargingKey, requested);
      reply := Reply(granted, SUCCESS, false);
    }

    /** Take what is left, but no more than requested, retrying until the swap succeeds. */
    method Take(subscriber: string, requested: uint64) returns (granted: uint64, exhausted: bool)
      requires Valid() && subscriber in balances
      modifies balances.Values
      ensures exhausted <==> old(View()).accounts[subscriber].total == 0
      ensures exhausted ==> View() == old(View())
      ensures !exhausted ==>
        && granted == Min(requested, old(View()).accounts[subscriber].total)
        && View() == Taken(old(View()), subscriber, granted)
    {
      ghost var before := View();
      var state := balances[subscriber];
      var swapped := false;
      granted, exhausted := 0, false;
      while !swapped
        invariant !swapped ==> View() == before
        invariant swapped ==>
          && before.accounts[subscriber].total != 0
          && granted == Min(requested, before.accounts[subscriber].total)
          && View() == Taken(before, subscriber, granted)
        decreases !swapped
      {
        var total := state.totalBalanceBytes;
        if total == 0 {
          return 0, true;
        }
        granted := if total < requested then total else requested;
        swapped := state.CompareAndSwapTotal(total, total - granted);
        assert View().accounts == Taken(before, subscriber, granted).accounts;
      }
    }

    method AddReserved(subscriber: string, granted: uint64)
      requires Valid() && subscriber in balances
      modifies balances.Values
      ensures View() == Held(old(View()), subscriber, granted)
    {
      ghost var before := View();
      var state := balances[subscriber];
      state.reservedBytes := Wrap(state.reservedBytes + granted);
      assert View().accounts == Held(before, subscriber, granted).accounts;
    }

    /** Move up to `amount` out of the reserve, retrying until the swap succeeds: the loop that
        CommitAndReserve and Release share. */
    method LowerReserve(subscriber: string, amount: uint64)
      requires Valid() && subscriber in balances
      modifies balances.Values
      ensures View() == Commit(old(View()), subscriber, amount)
    {
      ghost var before := View();
      var state := balances[subscriber];
      var swapped := false;
      while !swapped
        invariant View() == if swapped then Commit(before, subscriber, amount) else before
        decreases !swapped
      {
        var reserved := state.reservedBytes;
        var decrement := amount;
        if reserved < decrement {
          decrement := reserved;
        }
        swapped := state.CompareAndSwapReserved(reserved, reserved - decrement);
        assert View().accounts == Commit(before, subscriber, amount).accounts;
      }
    }

    method CommitAndReserve(subscriber: string, session: string, chargingKey: nat,
                            used: uint64, requested: uint64) returns (reply: Reply)
      requires Valid()
      modifies this`sessions, balances.Values
      ensures Valid()
      ensures (View(), reply)
           == old(Ocs.CommitAndReserve(View(), subscriber, session, chargingKey, used, requested))
    {
      if subscriber !in balances {
        return REFUSED;
      }
      LowerReserve(subscriber, used);
      reply := Reserve(subscriber, session, chargingKey, requested);
    }

    method PayBack(subscriber: string, refund: uint64)
      requires Valid() && subscriber in balances
      modifies balances.Values
      ensures View() == Credited(old(View()), subscriber, refund)
    {
      ghost var before := View();
      var state := balances[subscriber];
      state.totalBalanceBytes := Wrap(state.totalBalanceBytes + refund);
      assert View().accounts == Credited(before, subscriber, refund).accounts;
    }

    method Release(subscriber: string, session: string, chargingKey: nat, used: uint64) returns (reply: Reply)
      requires Valid()
      modifies this`sessions, balances.Values
      ensures Valid()
      ensures (View(), reply) == old(Ocs.Release(View(), subscriber, session, used))
    {
      hide Credited, Commit;
      ghost var before := View();
      if subscriber !in balances || session !in sessions {
        return REFUSED;
      }
      var quota := sessions[session].quota;
      var refund: uint64 := 0;
      if quota > used {
        refund := quota - used;
      }
      PayBack(subscriber, refund);
      LowerReserve(subscriber, quota);
      ghost var cleared := View();
      sessions := sessions - {session};
      assert View().accounts == cleared.accounts;
      ReleaseInSteps(before, subscriber, session, used);
      reply := RELEASED;
    }
  }

  /** The Gy front end: what the network sends and what it is told. */
  datatype CreditControlRequest =
    CreditControlRequest(sessionId: string, subscriberId: string, chargingKey: nat, requestType: nat, usedBytes: uint64)

  datatype CreditControlAnswer =
    | Answer(resultCode: nat, grantedBytes: uint64)
    | InvalidArgument

  /** The engine operation a request stands for; UPDATE asks for as much as it reports used. */
  function Decode(r: CreditControlRequest): Request
    requires 1 <= r.requestType <= 3
  {
    if r.requestType == 1 then Initial(r.subscriberId, r.sessionId, r.chargingKey, r.usedBytes)
    else if r.requestType == 2 then Update(r.subscriberId, r.sessionId, r.chargingKey, r.usedBytes, r.usedBytes)
    else Terminate(r.subscriberId, r.sessionId, r.chargingKey, r.usedBytes)
  }

  predicate Malformed(r: CreditControlRequest) {
    r.sessionId == "" || r.subscriberId == "" || !(1 <= r.requestType <= 3)
  }

  /** A malformed request changes nothing; any other one is served once, and every engine error reaches the
      network as code 4012 with nothing granted. */
  function Respond(l: Ledger, r: CreditControlRequest): (Ledger, CreditControlAnswer) {
    if Malformed(r) then (l, InvalidArgument)
    else
      var (ledger, reply) := Serve(l, Decode(r));
      (ledger, if reply.failed then Answer(CREDIT_LIMIT_REACHED, 0) else Answer(reply.code, reply.granted))
  }

  class GrpcHandler {
    const service: OcsService

    constructor (service: OcsService)
      ensures this.service == service
    {
      this.service := service;
    }

    method RequestCreditControl(req: CreditControlRequest) returns (answer: CreditControlAnswer)
      requires service.Valid()
      modifies service`sessions, service.balances.Values
      ensures service.Valid()
      ensures (service.View(), answer) == Respond(old(service.View()), req)
    {
      if req.sessionId == "" || req.subscriberId == "" {
        return InvalidArgument;
      }
      var reply: Reply;
      if req.requestType == 1 {
        reply := service.Reserve(req.subscriberId, req.sessionId, req.chargingKey, req.usedBytes);
      } else if req.requestType == 2 {
        reply := service.CommitAndReserve(req.subscriberId, req.sessionId, req.chargingKey,
                                          req.usedBytes, req.usedBytes);
      } else if req.requestType == 3 {
        reply := service.Release(req.subscriberId, req.sessionId, req.chargingKey, req.usedBytes);
      } else {
        return InvalidArgument;
      }
      if reply.failed {
        return Answer(CREDIT_LIMIT_REACHED, 0);
      }
      return Answer(reply.code, reply.granted);
    }
  }
}
