/** What each Gy request does to accounts and sessions and what it is answered, in figures. */
module OcsGy {
  import opened Ocs
  import opened OcsEngine

  /** An INITIAL gets what is left but no more than it asks for; those bytes move to the reserve and are noted as
      the session's quota. An empty account answers 4012 and nothing changes. */
  lemma InitialInFigures(l: Ledger, r: CreditControlRequest)
    requires r.sessionId != "" && r.subscriberId != "" && r.requestType == 1 && r.subscriberId in l.accounts
    ensures
      var was := l.accounts[r.subscriberId];
      var g: nat := if was.total < r.usedBytes then was.total else r.usedBytes;
      Respond(l, r) ==
        if was.total == 0 then (l, Answer(4012, 0))
        else (Ledger(l.accounts[r.subscriberId :=
                       Account(was.total - g, (was.reserved + g) % 0x1_0000_0000_0000_0000)],
                     l.sessions[r.sessionId := Session(r.subscriberId, r.chargingKey, g)]),
              Answer(2001, g))
  {
  }

  /** An UPDATE first takes its use out of the reserve, as far as that goes, and then gets as much again as it
      used; from an empty account it gets 4012, and the session stays as it was. */
  lemma UpdateInFigures(l: Ledger, r: CreditControlRequest)
    requires r.sessionId != "" && r.subscriberId != "" && r.requestType == 2 && r.subscriberId in l.accounts
    ensures
      var was := l.accounts[r.subscriberId];
      var kept: nat := if was.reserved < r.usedBytes then 0 else was.reserved - r.usedBytes;
      var g: nat := if was.total < r.usedBytes then was.total else r.usedBytes;
      Respond(l, r) ==
        if was.total == 0 then (Ledger(l.accounts[r.subscriberId := Account(0, kept)], l.sessions), Answer(4012, 0))
        else (Ledger(l.accounts[r.subscriberId := Account(was.total - g, (kept + g) % 0x1_0000_0000_0000_0000)],
                     l.sessions[r.sessionId := Session(r.subscriberId, r.chargingKey, g)]),
              Answer(2001, g))
  {
    var was := l.accounts[r.subscriberId];
    var kept: nat := if was.reserved < r.usedBytes then 0 else was.reserved - r.usedBytes;
    var g: nat := if was.total < r.usedBytes then was.total else r.usedBytes;
    var now := Account(was.total - g, (kept + g) % 0x1_0000_0000_0000_0000);
    assert l.accounts[r.subscriberId := Account(was.total, kept)][r.subscriberId := now]
        == l.accounts[r.subscriberId := now];
  }

  /** A TERMINATE of a stored session returns the unused part of its quota, takes the whole quota out of the
      reserve as far as that goes, and ends the session; of any other it is answered 4012 and nothing changes. */
  lemma TerminateInFigures(l: Ledger, r: CreditControlRequest)
    requires r.sessionId != "" && r.subscriberId != "" && r.requestType == 3 && r.subscriberId in l.accounts
    ensures
      Respond(l, r) ==
        if r.sessionId !in l.sessions then (l, Answer(4012, 0))
        else
          var was, quota := l.accounts[r.subscriberId], l.sessions[r.sessionId].quota;
          var unused: nat := if quota < r.usedBytes then 0 else quota - r.usedBytes;
          var kept: nat := if was.reserved < quota then 0 else was.reserved - quota;
          (Ledger(l.accounts[r.subscriberId := Account((was.total + unused) % 0x1_0000_0000_0000_0000, kept)],
                  l.sessions - {r.sessionId}),
           Answer(2001, 0))
  {
  }

  /** Requests of no known subscriber are answered 4012; requests without ids, or of no known type, are invalid.
      Neither changes anything. */
  lemma RefusedInFigures(l: Ledger, r: CreditControlRequest)
    ensures
      Respond(l, r).1 == InvalidArgument <==>
        r.sessionId == "" || r.subscriberId == "" || (r.requestType != 1 && r.requestType != 2 && r.requestType != 3)
    ensures Respond(l, r).1 == InvalidArgument ==> Respond(l, r).0 == l
    ensures Respond(l, r).1 != InvalidArgument && r.subscriberId !in l.accounts ==>
      Respond(l, r) == (l, Answer(4012, 0))
  {
  }
}
