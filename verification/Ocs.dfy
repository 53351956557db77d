/** The credit engine's data and the undisturbed meaning of each of its operations. */
module Ocs {
  import opened Numbers

  const TWO_64: nat := 0x1_0000_0000_0000_0000

  type uint64 = x: int | 0 <= x < TWO_64

  const SUCCESS: nat := 2001
  const CREDIT_LIMIT_REACHED: nat := 4012

  datatype Account = Account(total: uint64, reserved: uint64)

  datatype Session = Session(subscriber: string, chargingKey: nat, quota: uint64)

  datatype Ledger = Ledger(accounts: map<string, Account>, sessions: map<string, Session>)

  /** A Gy request as the engine receives it: Reserve, CommitAndReserve and Release. */
  datatype Request =
    | Initial(subscriber: string, session: string, chargingKey: nat, requested: uint64)
    | Update(subscriber: string, session: string, chargingKey: nat, used: uint64, requested: uint64)
    | Terminate(subscriber: string, session: string, chargingKey: nat, used: uint64)

  /** `failed` is the engine's error return, which carries code 4012 to the network. */
  datatype Reply = Reply(granted: uint64, code: nat, failed: bool)

  const GRANTED_NOTHING := Reply(0, CREDIT_LIMIT_REACHED, false)
  const REFUSED := Reply(0, CREDIT_LIMIT_REACHED, true)
  const RELEASED := Reply(0, SUCCESS, false)

  function Used(request: Request): uint64 {
    if request.Initial? then 0 else request.used
  }

  function Requested(request: Request): uint64 {
    if request.Terminate? then 0 else request.requested
  }

  /** 64-bit addition drops the carry. */
  function Wrap(x: nat): (w: uint64)
    ensures x < TWO_64 ==> w == x
  {
    x % TWO_64
  }

  /** What a session's owner gets back: the part of its quota it did not use. */
  function Refund(quota: uint64, used: uint64): uint64 {
    if quota > used then quota - used else 0
  }

  function Reserve(l: Ledger, subscriber: string, session: string, chargingKey: nat, requested: uint64)
    : (Ledger, Reply)
  {
    if subscriber !in l.accounts then (l, REFUSED)
    else
      var a := l.accounts[subscriber];
      if a.total == 0 then (l, GRANTED_NOTHING)
      else
        var granted := Min(requested, a.total);
        (Ledger(l.accounts[subscriber := Account(a.total - granted, Wrap(a.reserved + granted))],
                l.sessions[session := Session(subscriber, chargingKey, granted)]),
         Reply(granted, SUCCESS, false))
  }

  function Commit(l: Ledger, subscriber: string, used: uint64): Ledger
    requires subscriber in l.accounts
  {
    var a := l.accounts[subscriber];
    l.(accounts := l.accounts[subscriber := a.(reserved := a.reserved - Min(used, a.reserved))])
  }

  function CommitAndReserve(l: Ledger, subscriber: string, session: string, chargingKey: nat,
                            used: uint64, requested: uint64): (Ledger, Reply)
  {
    if subscriber !in l.accounts then (l, REFUSED)
    else Reserve(Commit(l, subscriber, used), subscriber, session, chargingKey, requested)
  }

  function Release(l: Ledger, subscriber: string, session: string, used: uint64): (Ledger, Reply) {
    if subscriber !in l.accounts || session !in l.sessions then (l, REFUSED)
    else
      var a := l.accounts[subscriber];
      var quota := l.sessions[session].quota;
      (Ledger(l.accounts[subscriber := Account(Wrap(a.total + Refund(quota, used)),
                                               a.reserved - Min(quota, a.reserved))],
              l.sessions - {session}),
       RELEASED)
  }

  function Serve(l: Ledger, request: Request): (Ledger, Reply) {
    match request
    case Initial(subscriber, session, key, requested) => Reserve(l, subscriber, session, key, requested)
    case Update(subscriber, session, key, used, requested) =>
      CommitAndReserve(l, subscriber, session, key, used, requested)
    case Terminate(subscriber, session, key, used) => Release(l, subscriber, session, used)
  }
}

/** What the operations promise when nothing disturbs them. */
module OcsLaws {
  import opened Numbers
  import opened Ocs

  /** The bytes a subscriber still owns: free ones and reserved ones. */
  function Owned(l: Ledger, subscriber: string): nat
    requires subscriber in l.accounts
  {
    l.accounts[subscriber].total + l.accounts[subscriber].reserved
  }

  /** Opening a session and closing it after `used` bytes costs exactly those bytes (up to the grant),
      and leaves every other account and session as it was. */
  lemma ReserveThenReleaseCostsUse(l: Ledger, subscriber: string, session: string, key: nat,
                                   requested: uint64, used: uint64)
    requires subscriber in l.accounts && l.accounts[subscriber].total > 0
    requires Owned(l, subscriber) < TWO_64
    ensures
      var (during, reply) := Reserve(l, subscriber, session, key, requested);
      var (closed, answer) := Release(during, subscriber, session, used);
      var cost := if used < reply.granted then used else reply.granted;
      && (reply.granted > 0 <==> requested > 0)
      && answer == RELEASED
      && closed.accounts == l.accounts[subscriber :=
           Account(l.accounts[subscriber].total - cost, l.accounts[subscriber].reserved)]
      && closed.sessions == l.sessions - {session}
  {
    var (during, reply) := Reserve(l, subscriber, session, key, requested);
    var (closed, answer) := Release(during, subscriber, session, used);
    assert during.sessions - {session} == l.sessions - {session};
    assert during.accounts[subscriber := closed.accounts[subscriber]]
        == l.accounts[subscriber := closed.accounts[subscriber]];
  }

  /** A TERMINATE charges its session exactly min(used, quota) if and only if the reserve still holds
      the whole quota; otherwise the shortfall appears as new bytes on the account. */
  lemma ReleaseChargesUseIffReserveCovers(l: Ledger, subscriber: string, session: string, used: uint64)
    requires subscriber in l.accounts && session in l.sessions
    requires l.accounts[subscriber].total + l.sessions[session].quota < TWO_64
    ensures
      var quota := l.sessions[session].quota;
      var reserved := l.accounts[subscriber].reserved;
      var charged := Owned(l, subscriber) - Owned(Release(l, subscriber, session, used).0, subscriber);
      && (charged == Min(used, quota) <==> reserved >= quota)
      && (reserved < quota ==> charged == Min(used, quota) - (quota - reserved))
  {
  }

  /** A subscriber with ten bytes uses them all, is told 4012 on the UPDATE, and gets all ten back from
      the TERMINATE: the session still names a quota whose bytes were committed. */
  lemma ReleaseAfterCreditLimitMintsBytes()
    ensures
      var l0 := Ledger(map["a" := Account(10, 0)], map[]);
      var (l1, r1) := Reserve(l0, "a", "s", 1, 10);
      var (l2, r2) := CommitAndReserve(l1, "a", "s", 1, 10, 10);
      var (l3, r3) := Release(l2, "a", "s", 0);
      && r1 == Reply(10, SUCCESS, false)
      && r2 == GRANTED_NOTHING && Owned(l2, "a") == 0
      && r3 == RELEASED && l3 == l0
  {
    var l0 := Ledger(map["a" := Account(10, 0)], map[]);
    var (l1, r1) := Reserve(l0, "a", "s", 1, 10);
    assert l1 == Ledger(map["a" := Account(0, 10)], map["s" := Session("a", 1, 10)]);
    var (l2, r2) := CommitAndReserve(l1, "a", "s", 1, 10, 10);
    assert l2 == Ledger(map["a" := Account(0, 0)], l1.sessions);
    var (l3, r3) := Release(l2, "a", "s", 0);
    assert l3.sessions == map[];
    assert l3.accounts == l0.accounts;
  }
}
