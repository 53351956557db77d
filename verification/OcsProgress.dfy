/** The compare-and-swap loops of the engine only retry when somebody else got through. */
module OcsProgress {
  import opened Ocs
  import opened OcsMachine

  /** The three loops: reserving from the balance, committing from the reserve, clearing a released quota. */
  datatype Loop = Reserving | Committing | Clearing

  ghost predicate InLoop(loop: Loop, th: Thread) {
    match loop
    case Reserving => th.at.ReadTotal? || th.at.SwapTotal?
    case Committing => th.at.ReadReserved? || th.at.SwapReserved?
    case Clearing => th.at.ReadDebit? || th.at.SwapDebit?
  }

  /** The word the loop swaps. */
  ghost function Word(loop: Loop, l: Ledger, subscriber: string): uint64 {
    if subscriber !in l.accounts then 0
    else if loop == Reserving then l.accounts[subscriber].total
    else l.accounts[subscriber].reserved
  }

  ghost predicate Spinning(loop: Loop, s: State, t: nat) {
    t < |s.threads| && InLoop(loop, s.threads[t])
  }

  ghost predicate Swapping(loop: Loop, th: Thread) {
    InLoop(loop, th) && (th.at.SwapTotal? || th.at.SwapReserved? || th.at.SwapDebit?)
  }

  /** The thread is about to swap a value that is no longer there. */
  ghost predicate Stale(loop: Loop, s: State, t: nat) {
    && t < |s.threads| && Swapping(loop, s.threads[t])
    && s.threads[t].at.seen != Word(loop, s.ledger, s.threads[t].request.subscriber)
  }

  /** The event is another thread's change of the word that thread t swaps. */
  ghost predicate Foreign(loop: Loop, s: State, t: nat, e: Event) {
    && t < |s.threads| && e != Run(t)
    && Word(loop, s.ledger, s.threads[t].request.subscriber)
       != Word(loop, Step(s, e).ledger, s.threads[t].request.subscriber)
  }

  ghost function ForeignWrites(loop: Loop, s: State, t: nat, es: seq<Event>): nat
    decreases |es|
  {
    if es == [] then 0
    else (if Foreign(loop, s, t, es[0]) then 1 else 0) + ForeignWrites(loop, Step(s, es[0]), t, es[1..])
  }

  /** Actions thread t takes inside the loop. */
  ghost function Actions(loop: Loop, s: State, t: nat, es: seq<Event>): nat
    decreases |es|
  {
    if es == [] then 0
    else (if es[0] == Run(t) && Spinning(loop, s, t) then 1 else 0) + Actions(loop, Step(s, es[0]), t, es[1..])
  }

  /** Swaps of thread t that fail. */
  ghost function Failures(loop: Loop, s: State, t: nat, es: seq<Event>): nat
    decreases |es|
  {
    if es == [] then 0
    else (if es[0] == Run(t) && Stale(loop, s, t) then 1 else 0) + Failures(loop, Step(s, es[0]), t, es[1..])
  }

  /** Actions a thread may still take before its loop ends if nobody interferes. */
  ghost function Credit(loop: Loop, s: State, t: nat): nat {
    if !Spinning(loop, s, t) then 0
    else if Stale(loop, s, t) then 3
    else if Swapping(loop, s.threads[t]) then 1
    else 2
  }

  /** The thread is in the loop or past it. */
  ghost predicate Entered(loop: Loop, s: State, t: nat) {
    && t < |s.threads|
    && s.threads[t].request.subscriber in s.ledger.accounts
    && match loop
       case Reserving => s.threads[t].at.ReadTotal? || s.threads[t].at.SwapTotal?
                         || s.threads[t].at.AddReserved? || s.threads[t].at.StoreSession?
                         || s.threads[t].at.Finished?
       case Committing => !s.threads[t].at.Start? && !s.threads[t].at.FindSession?
       case Clearing => s.threads[t].at.ReadDebit? || s.threads[t].at.SwapDebit?
                        || s.threads[t].at.DropSession? || s.threads[t].at.Finished?
  }

  lemma StepSpends(loop: Loop, s: State, t: nat, e: Event)
    requires Entered(loop, s, t)
    ensures Entered(loop, Step(s, e), t)
    ensures (if e == Run(t) && Spinning(loop, s, t) then 1 else 0) + Credit(loop, Step(s, e), t)
         <= Credit(loop, s, t) + (if Foreign(loop, s, t, e) then 2 else 0)
    ensures (if e == Run(t) && Stale(loop, s, t) then 1 else 0) + (if Stale(loop, Step(s, e), t) then 1 else 0)
         <= (if Stale(loop, s, t) then 1 else 0) + (if Foreign(loop, s, t, e) then 1 else 0)
  {
  }

  /** Lock-freedom with its measure, in every interleaving: each failed swap is paid for by another
      thread's write to the same word, and from entering a loop to leaving it a thread takes at most two
      actions per such write besides the two of an undisturbed pass. */
  lemma {:induction false} RetriesArePaidByOthers(loop: Loop, s: State, t: nat, es: seq<Event>)
    requires Entered(loop, s, t)
    ensures Actions(loop, s, t, es) + Credit(loop, Exec(s, es), t)
         <= Credit(loop, s, t) + 2 * ForeignWrites(loop, s, t, es)
    ensures Failures(loop, s, t, es) <= (if Stale(loop, s, t) then 1 else 0) + ForeignWrites(loop, s, t, es)
    decreases |es|
  {
    if es != [] {
      StepSpends(loop, s, t, es[0]);
      RetriesArePaidByOthers(loop, Step(s, es[0]), t, es[1..]);
    }
  }

  /** Hence a thread that entered its loop and has run in it more often than the others' writes allow has
      left it. */
  lemma LoopEnds(loop: Loop, s: State, t: nat, es: seq<Event>)
    requires Entered(loop, s, t) && Spinning(loop, s, t) && !Swapping(loop, s.threads[t])
    requires Actions(loop, s, t, es) >= 2 + 2 * ForeignWrites(loop, s, t, es)
    ensures !Spinning(loop, Exec(s, es), t)
  {
    RetriesArePaidByOthers(loop, s, t, es);
  }
}
