/** What the providers answer a request, in any interleaving, and how it ends for that. */
module ProviderAnswers {
  import opened Wrappers
  import opened Ledger
  import opened History
  import opened Settlement
  import opened Protocol
  import opened Interleaving
  import opened Serialisable
  import opened ProtocolTheorems

  // ----- What a request has heard -----

  predicate Waiting(c: Client) {
    c.Primary? || c.Secondary?
  }

  /** The answers that reached client `i` while it was waiting for one, in order. */
  function Heard(l: Limits, requests: seq<Request>, clock: real, actions: seq<Action>, i: nat): seq<Outcome>
    requires i < |requests|
  {
    if actions == [] then [] else
      var init, a := actions[..|actions| - 1], actions[|actions| - 1];
      Heard(l, requests, clock, init, i)
      + if a.Answer? && a.client == i && Waiting(Exec(l, requests, clock, init).clients[i]) then [a.outcome] else []
  }

  /** The primary alone answered, and not with a 429 or a timeout; or it did answer
      so, and the secondary answered after it. */
  predicate Concluded(heard: seq<Outcome>) {
    || (|heard| == 1 && !FailsOver(heard[0]))
    || (|heard| == 2 && FailsOver(heard[0]))
  }

  /** `how` is what the last answer calls for. */
  predicate Follows(heard: seq<Outcome>, how: Settlement, estimate: int) {
    Concluded(heard) && how == SettlementFor(heard[|heard| - 1], estimate)
  }

  /** Where a client is, given what it has heard. */
  predicate Explains(heard: seq<Outcome>, c: Client, estimate: int) {
    match c
    case Secondary(_) => |heard| == 1 && FailsOver(heard[0])
    case Settling(_, how) => Follows(heard, how, estimate)
    case Writing(_, how) => Follows(heard, how, estimate)
    case Written(_, how) => Follows(heard, how, estimate)
    case Served(_, charge) => Follows(heard, Charge(charge), estimate)
    case Abandoned(_) => Follows(heard, Withdraw, estimate)
    case _ => heard == []
  }

  lemma {:induction false} AnswerExplained(r: Request, s: System, i: nat, outcome: Outcome, heard: seq<Outcome>)
    requires i < |s.clients| && Explains(heard, s.clients[i], r.estimate)
    ensures Explains(heard + if Waiting(s.clients[i]) then [outcome] else [],
                     Answered(r, s, i, outcome).clients[i], r.estimate)
  {
    assert heard + [] == heard;
  }

  lemma {:induction false} MoveExplained(l: Limits, r: Request, s: System, i: nat, heard: seq<Outcome>)
    requires i < |s.clients| && Explains(heard, s.clients[i], r.estimate)
    ensures Explains(heard, Moved(l, r, s, i).clients[i], r.estimate)
  {
    hide Recent, SumOf, Updated, Deleted;
  }

  lemma {:induction false} OthersStay(l: Limits, requests: seq<Request>, s: System, a: Action, i: nat)
    requires |s.clients| == |requests| && i < |requests|
    requires a.Tick? || a.client != i
    ensures Next(l, requests, s, a).clients[i] == s.clients[i]
  {
    hide Recent, SumOf, Updated, Deleted;
  }

  /** In every interleaving a request is where the providers' answers to it lead:
      at the secondary only after a 429 or a timeout of the primary, at the end of
      its calls only after an answer that decides, and settled as that answer says. */
  lemma {:induction false} EveryOutcomeSettles(
    l: Limits, requests: seq<Request>, clock: real, actions: seq<Action>, i: nat)
    requires i < |requests|
    ensures Explains(Heard(l, requests, clock, actions, i),
                     Exec(l, requests, clock, actions).clients[i], requests[i].estimate)
  {
    hide Moved, Answered;
    if actions != [] {
      var init, a := actions[..|actions| - 1], actions[|actions| - 1];
      var s, heard := Exec(l, requests, clock, init), Heard(l, requests, clock, init, i);
      EveryOutcomeSettles(l, requests, clock, init, i);
      assert heard + [] == heard;
      if a.Tick? || a.client != i {
        OthersStay(l, requests, s, a, i);
      } else if a.Move? {
        MoveExplained(l, requests[i], s, i, heard);
      } else {
        AnswerExplained(requests[i], s, i, a.outcome, heard);
      }
    }
  }

  /** The first answer heard was one of the two that send a request on. */
  predicate SentOn(heard: seq<Outcome>) {
    |heard| > 0 && (heard[0].RateLimited? || heard[0].TimedOut?)
  }

  /** In every interleaving: a request is at the secondary, or has heard two answers,
      exactly when the primary answered with a 429 or a timeout; a request that was
      served was charged the tokens that its last answer reported, or its estimate if
      that was none; and one that was abandoned had no success to show. */
  lemma {:induction false} AnswersDecide(
    l: Limits, requests: seq<Request>, clock: real, actions: seq<Action>, i: nat)
    requires i < |requests|
    ensures var heard := Heard(l, requests, clock, actions, i);
            var c := Exec(l, requests, clock, actions).clients[i];
            && (c.Secondary? || |heard| == 2 <==> SentOn(heard))
            && |heard| <= 2
            && (c.Served? ==>
                  && |heard| > 0 && heard[|heard| - 1].Success?
                  && var reported := heard[|heard| - 1].prompt + heard[|heard| - 1].completion;
                     c.charge == if reported > 0 then reported else requests[i].estimate)
            && (c.Abandoned? ==> |heard| > 0 && !heard[|heard| - 1].Success?)
  {
    hide Exec, Heard;
    EveryOutcomeSettles(l, requests, clock, actions, i);
  }

  /** The one settlement in the trace is the one the deciding answer calls for. */
  lemma {:induction false} TraceFollowsAnswers(
    l: Limits, requests: seq<Request>, clock: real, actions: seq<Action>, i: nat, j: nat)
    requires Sensible(requests) && i < |requests|
    requires IsSettlementOf(Exec(l, requests, clock, actions), j, i)
    ensures var s, heard := Exec(l, requests, clock, actions), Heard(l, requests, clock, actions, i);
            && Concluded(heard) && HasTicket(ViewOf(s.clients[i]))
            && s.trace[j].op == SettlementOp(ViewOf(s.clients[i]).ticket.id,
                                             SettlementFor(heard[|heard| - 1], requests[i].estimate))
  {
    hide Exec, Heard;
    SettledExactlyOnce(l, requests, clock, actions, i);
    EveryOutcomeSettles(l, requests, clock, actions, i);
    assert SettledAs(Exec(l, requests, clock, actions), j, i);
  }

  // ----- No request is ever stuck -----

  lemma {:induction false} ExecAppend(l: Limits, requests: seq<Request>, clock: real, actions: seq<Action>, a: Action)
    ensures Exec(l, requests, clock, actions + [a]) == Next(l, requests, Exec(l, requests, clock, actions), a)
  {
    assert (actions + [a])[..|actions|] == actions;
  }

  /** How many steps a client is from giving up the lock. */
  function StepsToRelease(c: Client): nat {
    match c
    case Locked => 5
    case Timed(_) => 4
    case Swept(_) => 3
    case Summed(_, _) => 2
    case Inserted(_) => 1
    case Writing(_, _) => 2
    case Written(_, _) => 1
    case _ => 0
  }

  lemma {:induction false} LockHasHolder(l: Limits, requests: seq<Request>, clock: real, actions: seq<Action>)
    ensures Exec(l, requests, clock, actions).lock.Some? ==> Exec(l, requests, clock, actions).lock.value < |requests|
  {
    hide Recent, SumOf, Updated, Deleted;
    if actions != [] {
      LockHasHolder(l, requests, clock, actions[..|actions| - 1]);
    }
  }

  lemma {:induction false} HolderAdvances(l: Limits, r: Request, s: System, k: nat)
    requires k < |s.clients| && HoldsLock(s.clients[k]) && s.lock == Some(k)
    ensures StepsToRelease(Moved(l, r, s, k).clients[k]) < StepsToRelease(s.clients[k])
    ensures Moved(l, r, s, k).lock == s.lock || Moved(l, r, s, k).lock == None
  {
    hide Recent, SumOf, Updated, Deleted;
  }

  /** Whoever holds the lock gives it up without waiting for anyone. */
  lemma {:induction false} LockIsReleased(
    l: Limits, requests: seq<Request>, clock: real, actions: seq<Action>, i: nat, k: nat) returns (more: seq<Action>)
    requires Sensible(requests) && i < |requests| && i != k
    requires Exec(l, requests, clock, actions).lock == Some(k)
    ensures var (s, s') := (Exec(l, requests, clock, actions), Exec(l, requests, clock, actions + more));
            s'.lock == None && s'.clients[i] == s.clients[i]
    decreases if k < |requests| then StepsToRelease(Exec(l, requests, clock, actions).clients[k]) else 0
  {
    hide Recorded, Run, Fresh, Moved, Exec;
    var s, next := Exec(l, requests, clock, actions), actions + [Move(k)];
    ReachableInv(l, requests, clock, actions);
    LockHasHolder(l, requests, clock, actions);
    assert HoldsLock(s.clients[k]);
    ExecAppend(l, requests, clock, actions, Move(k));
    HolderAdvances(l, requests[k], s, k);
    OthersStay(l, requests, s, Move(k), i);
    more := [Move(k)];
    if Exec(l, requests, clock, next).lock == Some(k) {
      var rest := LockIsReleased(l, requests, clock, next, i, k);
      assert next + rest == actions + ([Move(k)] + rest);
      more := [Move(k)] + rest;
    }
  }

  /** How many steps a request with a reservation is from its end. */
  function StepsToEnd(c: Client): nat {
    match c
    case Primary(_) => 5
    case Secondary(_) => 4
    case Settling(_, _) => 3
    case Writing(_, _) => 2
    case Written(_, _) => 1
    case _ => 0
  }

  /** How a request with a reservation ends, given what each provider would answer. */
  function Fate(c: Client, first: Outcome, second: Outcome, estimate: int): View
    requires ViewOf(c).Holding?
  {
    match c
    case Primary(ticket) => Ending(ticket, SettlementFor(Deciding(first, second), estimate))
    case Secondary(ticket) => Ending(ticket, SettlementFor(second, estimate))
    case Settling(ticket, how) => Ending(ticket, how)
    case Writing(ticket, how) => Ending(ticket, how)
    case Written(ticket, how) => Ending(ticket, how)
  }

  /** The next action of a request with a reservation. */
  function NextOf(c: Client, i: nat, first: Outcome, second: Outcome): Action {
    match c
    case Primary(_) => Answer(i, first)
    case Secondary(_) => Answer(i, second)
    case _ => Move(i)
  }

  predicate NotKeptOut(s: System, i: nat)
    requires i < |s.clients|
  {
    s.lock == None || (s.lock == Some(i) && HoldsLock(s.clients[i]))
  }

  /** From `c` in `s` to `c'` in `s'` client `i` comes nearer to the same end. */
  predicate Nearer(s: System, s': System, i: nat, first: Outcome, second: Outcome, estimate: int)
    requires i < |s.clients| == |s'.clients| && ViewOf(s.clients[i]).Holding?
  {
    var (c, c') := (s.clients[i], s'.clients[i]);
    && NotKeptOut(s', i) && (HoldsLock(c') ==> s'.lock == Some(i))
    && StepsToEnd(c') < StepsToEnd(c)
    && Fate(c, first, second, estimate)
       == if ViewOf(c').Holding? then Fate(c', first, second, estimate) else ViewOf(c')
  }

  lemma {:induction false} OwnAnswer(r: Request, s: System, i: nat, first: Outcome, second: Outcome)
    requires i < |s.clients| && Waiting(s.clients[i]) && NotKeptOut(s, i)
    ensures Nearer(s, Answered(r, s, i, if s.clients[i].Primary? then first else second), i, first, second, r.estimate)
  {
  }

  lemma {:induction false} OwnMove(l: Limits, r: Request, s: System, i: nat, first: Outcome, second: Outcome)
    requires i < |s.clients| && ViewOf(s.clients[i]).Holding? && !Waiting(s.clients[i]) && NotKeptOut(s, i)
    requires HoldsLock(s.clients[i]) ==> s.lock == Some(i)
    ensures Nearer(s, Moved(l, r, s, i), i, first, second, r.estimate)
  {
    hide Updated, Deleted, Recent, SumOf, SettlementFor, Deciding;
  }

  lemma {:induction false} OwnStep(
    l: Limits, requests: seq<Request>, s: System, i: nat, first: Outcome, second: Outcome)
    requires |s.clients| == |requests| && i < |requests| && ViewOf(s.clients[i]).Holding? && NotKeptOut(s, i)
    requires HoldsLock(s.clients[i]) ==> s.lock == Some(i)
    ensures var s' := Next(l, requests, s, NextOf(s.clients[i], i, first, second));
            Nearer(s, s', i, first, second, requests[i].estimate)
  {
    hide Moved, Answered, Nearer;
    if Waiting(s.clients[i]) {
      OwnAnswer(requests[i], s, i, first, second);
    } else {
      OwnMove(l, requests[i], s, i, first, second);
    }
  }

  lemma {:induction false} FinishesWhenNotKeptOut(
    l: Limits, requests: seq<Request>, clock: real, actions: seq<Action>, i: nat, first: Outcome, second: Outcome)
    returns (more: seq<Action>)
    requires i < |requests| && ViewOf(Exec(l, requests, clock, actions).clients[i]).Holding?
    requires NotKeptOut(Exec(l, requests, clock, actions), i)
    requires HoldsLock(Exec(l, requests, clock, actions).clients[i]) ==>
               Exec(l, requests, clock, actions).lock == Some(i)
    ensures ViewOf(Exec(l, requests, clock, actions + more).clients[i])
         == Fate(Exec(l, requests, clock, actions).clients[i], first, second, requests[i].estimate)
    decreases StepsToEnd(Exec(l, requests, clock, actions).clients[i])
  {
    hide Next, Exec, Fate, NextOf, StepsToEnd, NotKeptOut;
    var s := Exec(l, requests, clock, actions);
    var a := NextOf(s.clients[i], i, first, second);
    OwnStep(l, requests, s, i, first, second);
    ExecAppend(l, requests, clock, actions, a);
    more := [a];
    if ViewOf(Exec(l, requests, clock, actions + [a]).clients[i]).Holding? {
      var rest := FinishesWhenNotKeptOut(l, requests, clock, actions + [a], i, first, second);
      assert actions + [a] + rest == actions + ([a] + rest);
      more := [a] + rest;
    }
  }

  /** No reachable state keeps a request that holds a reservation from its end:
      whatever the providers answer, some continuation settles it as they say. */
  lemma {:induction false} EveryRequestCanFinish(
    l: Limits, requests: seq<Request>, clock: real, actions: seq<Action>, i: nat, first: Outcome, second: Outcome)
    returns (more: seq<Action>)
    requires Sensible(requests) && i < |requests|
    requires ViewOf(Exec(l, requests, clock, actions).clients[i]).Holding?
    ensures ViewOf(Exec(l, requests, clock, actions + more).clients[i])
         == Fate(Exec(l, requests, clock, actions).clients[i], first, second, requests[i].estimate)
  {
    hide Recorded, Run, Fresh, Next, Exec, Fate;
    var s := Exec(l, requests, clock, actions);
    ReachableInv(l, requests, clock, actions);
    more := [];
    assert actions + [] == actions;
    if s.lock.Some? && s.lock != Some(i) {
      more := LockIsReleased(l, requests, clock, actions, i, s.lock.value);
      ReachableInv(l, requests, clock, actions + more);
    }
    var rest := FinishesWhenNotKeptOut(l, requests, clock, actions + more, i, first, second);
    assert actions + more + rest == actions + (more + rest);
    more := more + rest;
  }

  /** The primary answers, the secondary answers if it was asked, and the request
      takes its remaining steps undisturbed. */
  function AfterAnswers(l: Limits, requests: seq<Request>, s: System, i: nat, first: Outcome, second: Outcome): System
    requires |s.clients| == |requests|
  {
    var called := Next(l, requests, Next(l, requests, s, Answer(i, first)), Answer(i, second));
    Next(l, requests, Next(l, requests, Next(l, requests, called, Move(i)), Move(i)), Move(i))
  }

  lemma {:induction false} ThreeStepsSettle(
    l: Limits, requests: seq<Request>, s: System, i: nat, ticket: Ticket, how: Settlement)
    requires |s.clients| == |requests| && i < |requests| && s.clients[i] == Settling(ticket, how) && s.lock == None
    ensures var s' := Next(l, requests, Next(l, requests, Next(l, requests, s, Move(i)), Move(i)), Move(i));
            && s'.clients == s.clients[i := if how.Charge? then Served(ticket, how.tokens) else Abandoned(ticket)]
            && s'.committed == SettledTable(s.committed, ticket, how)
            && s'.trace == s.trace + [Txn(i, SettlementOp(ticket.id, how))]
            && s'.lock == None && s'.clock == s.clock
  {
    hide SettledTable, SettlementOp, Recent, SumOf;
  }

  /** A request that finds the lock free settles in its own next steps, and these
      change nothing but its own reservation. */
  lemma {:induction false} UndisturbedRequestSettles(
    l: Limits, requests: seq<Request>, s: System, i: nat, first: Outcome, second: Outcome)
    requires |s.clients| == |requests| && i < |requests| && s.clients[i].Primary? && s.lock == None
    ensures var how := SettlementFor(Deciding(first, second), requests[i].estimate);
            var ticket := s.clients[i].ticket;
            var s' := AfterAnswers(l, requests, s, i, first, second);
            && s'.clients == s.clients[i := if how.Charge? then Served(ticket, how.tokens) else Abandoned(ticket)]
            && s'.committed == SettledTable(s.committed, ticket, how)
            && s'.trace == s.trace + [Txn(i, SettlementOp(ticket.id, how))]
            && s'.lock == None && s'.clock == s.clock
  {
    var how := SettlementFor(Deciding(first, second), requests[i].estimate);
    var called := Next(l, requests, Next(l, requests, s, Answer(i, first)), Answer(i, second));
    assert called == Place(s, i, Settling(s.clients[i].ticket, how)) by {
      hide Moved;
    }
    hide Next;
    ThreeStepsSettle(l, requests, called, i, s.clients[i].ticket, how);
  }
}
