/** Under the write lock every interleaving of the protocol has the admissions,
    the settlements and the table of one serial run. */
module Serialisable {
  import opened Wrappers
  import opened Ledger
  import opened History
  import opened Settlement
  import opened Protocol
  import opened Interleaving

  predicate HoldsLock(c: Client) {
    || c.Locked? || c.Timed? || c.Swept? || c.Summed? || c.Inserted?
    || c.Writing? || c.Written?
  }

  /** What the lock holder has seen and done is what it would see and do now. */
  predicate Fresh(l: Limits, r: Request, s: System, c: Client) {
    match c
    case Timed(now) => s.working == s.committed && now <= s.clock && NoLaterThan(Ops(s.trace), now)
    case Swept(now) =>
      && s.working == s.committed.(rows := Recent(s.committed.rows, now - l.window))
      && now <= s.clock && NoLaterThan(Ops(s.trace), now)
    case Summed(now, used) =>
      && s.working == s.committed.(rows := Recent(s.committed.rows, now - l.window))
      && used == SumOf(s.working.rows, r.tenant, now - l.window)
      && now <= s.clock && NoLaterThan(Ops(s.trace), now)
    case Inserted(ticket) =>
      && s.working == Reserve(l, s.committed, ticket.ts, r.tenant, r.estimate)
      && Decision(l, s.committed, ticket.ts, r.tenant, r.estimate) == Admitted(ticket.id)
      && ticket.ts <= s.clock && NoLaterThan(Ops(s.trace), ticket.ts)
    case Written(ticket, how) => s.working == SettledTable(s.committed, ticket, how)
    case _ => s.working == s.committed
  }

  predicate NonNegativeCharge(c: Client) {
    (c.Settling? || c.Writing? || c.Written?) && c.how.Charge? ==> c.how.tokens >= 0
  }

  ghost predicate Inv(l: Limits, requests: seq<Request>, s: System) {
    && |s.clients| == |requests|
    && (forall i :: 0 <= i < |requests| ==>
          && (HoldsLock(s.clients[i]) <==> s.lock == Some(i))
          && (HoldsLock(s.clients[i]) ==> Fresh(l, requests[i], s, s.clients[i]))
          && NonNegativeCharge(s.clients[i]))
    && Recorded(l, requests, Views(s.clients), s.trace)
    && s.committed == Run(l, Ops(s.trace)).table
    && NoLaterThan(Ops(s.trace), s.clock)
  }

  predicate Sensible(requests: seq<Request>) {
    forall i :: 0 <= i < |requests| ==> requests[i].estimate >= 0
  }

  lemma {:induction false} ViewsAfter(clients: seq<Client>, i: nat, c: Client)
    requires i < |clients|
    ensures Views(clients[i := c]) == Views(clients)[i := ViewOf(c)]
  {
  }

  lemma {:induction false} InitialInv(l: Limits, requests: seq<Request>, clock: real)
    ensures Inv(l, requests, Initial(requests, clock))
  {
    var views := Views(Initial(requests, clock).clients);
    forall tenant: string, cutoff: real ensures SumAgrees(requests, views, [], tenant, cutoff) {
      NothingCounted(requests, views, tenant, cutoff);
    }
    assert Ops([]) == [];
  }

  lemma {:induction false} NothingCounted(requests: seq<Request>, views: seq<View>, tenant: string, cutoff: real)
    requires |requests| == |views| && forall i :: 0 <= i < |views| ==> views[i] == Nothing
    ensures CountedTotal(requests, views, tenant, cutoff) == 0
  {
    if views != [] {
      NothingCounted(requests[..|views| - 1], views[..|views| - 1], tenant, cutoff);
    }
  }

  /** A step inside a transaction, or outside any: nothing is committed. */
  lemma {:induction false} QuietStep(l: Limits, requests: seq<Request>, s: System, s': System, i: nat)
    requires Inv(l, requests, s) && i < |requests|
    requires |s'.clients| == |s.clients| && s'.clients == s.clients[i := s'.clients[i]]
    requires ViewOf(s'.clients[i]) == ViewOf(s.clients[i])
    requires s'.trace == s.trace && s'.committed == s.committed && s'.clock == s.clock
    requires s.lock == None || s.lock == Some(i) || (s'.lock == s.lock && s'.working == s.working)
    requires s'.lock == s.lock || s'.lock == None || s'.lock == Some(i)
    requires HoldsLock(s'.clients[i]) <==> s'.lock == Some(i)
    requires HoldsLock(s'.clients[i]) ==> Fresh(l, requests[i], s', s'.clients[i])
    requires NonNegativeCharge(s'.clients[i])
    ensures Inv(l, requests, s')
  {
    hide Recorded, Run, Recent, SumOf, Updated, Deleted, Reserve, Decision;
    ViewsAfter(s.clients, i, s'.clients[i]);
    assert Views(s'.clients) == Views(s.clients);
  }

  /** The end of a transaction: the lock is free and the trace has one more entry. */
  lemma {:induction false} EndStep(
    l: Limits, requests: seq<Request>, s: System, i: nat, table: Table, op: Op, c: Client)
    requires Inv(l, requests, s) && i < |requests| && s.lock == Some(i) && !HoldsLock(c) && NonNegativeCharge(c)
    requires Recorded(l, requests, Views(s.clients)[i := ViewOf(c)], s.trace + [Txn(i, op)])
    requires table == Apply(l, Run(l, Ops(s.trace)), op).table
    requires op.Reserving? ==> op.now <= s.clock
    ensures Inv(l, requests, EndTxn(s, i, table, op, c))
  {
    hide Recorded, Run, Fresh;
    ViewsAfter(s.clients, i, c);
    OpsAppend(l, s.trace, Txn(i, op));
  }

  /** The sum a lock holder has read decides as the committed table would. */
  lemma {:induction false} SummedDecides(l: Limits, r: Request, s: System, c: Client)
    requires c.Summed? && Fresh(l, r, s, c)
    ensures Decision(l, s.committed, c.now, r.tenant, r.estimate)
         == if c.used + r.estimate > l.limit then Refused(c.used) else Admitted(s.working.lastId + 1)
    ensures c.used == SumOf(s.committed.rows, r.tenant, c.now - l.window)
  {
    SumOfRecent(s.committed.rows, r.tenant, c.now - l.window);
  }

  lemma {:induction false} DenialRecorded(l: Limits, requests: seq<Request>, s: System, i: nat, op: Op, used: int)
    requires Inv(l, requests, s) && i < |requests| && requests[i].estimate >= 0
    requires op.Reserving? && op.tenant == requests[i].tenant && op.estimate == requests[i].estimate
    requires s.clients[i] == Summed(op.now, used) && used + requests[i].estimate > l.limit
    ensures Recorded(l, requests, Views(s.clients)[i := Refusal(used)], s.trace + [Txn(i, op)])
    ensures op.now <= s.clock
    ensures Decision(l, s.committed, op.now, op.tenant, op.estimate) == Refused(used)
  {
    assert Fresh(l, requests[i], s, s.clients[i]);
    SummedDecides(l, requests[i], s, s.clients[i]);
    RecordRefusal(l, requests, Views(s.clients), s.trace, i, op, used);
  }

  lemma {:induction false} DeniedStep(l: Limits, requests: seq<Request>, s: System, i: nat)
    requires Inv(l, requests, s) && i < |requests| && requests[i].estimate >= 0
    requires s.clients[i].Summed? && s.clients[i].used + requests[i].estimate > l.limit
    ensures Inv(l, requests, Moved(l, requests[i], s, i))
  {
    hide Recorded, Run, Decision, Fresh;
    var used := s.clients[i].used;
    var op := Reserving(s.clients[i].now, requests[i].tenant, requests[i].estimate);
    DenialRecorded(l, requests, s, i, op, used);
    EndStep(l, requests, s, i, s.committed, op, Denied(used));
  }

  lemma {:induction false} AdmittedStep(l: Limits, requests: seq<Request>, s: System, i: nat)
    requires Inv(l, requests, s) && i < |requests| && requests[i].estimate >= 0 && s.clients[i].Inserted?
    ensures Inv(l, requests, Moved(l, requests[i], s, i))
  {
    hide Recorded, Run, Decision, Recent, SumOf;
    var r, ticket := requests[i], s.clients[i].ticket;
    var op := Reserving(ticket.ts, r.tenant, r.estimate);
    assert Fresh(l, r, s, s.clients[i]);
    RecordAdmission(l, requests, Views(s.clients), s.trace, i, op, Holding(ticket));
    EndStep(l, requests, s, i, s.working, op, Primary(ticket));
  }

  lemma {:induction false} SettledStep(l: Limits, requests: seq<Request>, s: System, i: nat)
    requires Inv(l, requests, s) && i < |requests| && s.clients[i].Written?
    ensures Inv(l, requests, Moved(l, requests[i], s, i))
  {
    hide Recorded, Run, Recent, SumOf, Updated, Deleted;
    var ticket, how := s.clients[i].ticket, s.clients[i].how;
    var c := if how.Charge? then Served(ticket, how.tokens) else Abandoned(ticket);
    assert Fresh(l, requests[i], s, s.clients[i]);
    assert NonNegativeCharge(s.clients[i]);
    RecordSettlement(l, requests, Views(s.clients), s.trace, i, how, ViewOf(c));
    EndStep(l, requests, s, i, s.working, SettlementOp(ticket.id, how), c);
  }

  /** The client's next step ends its transaction. */
  predicate AboutToEnd(l: Limits, r: Request, c: Client) {
    c.Inserted? || c.Written? || (c.Summed? && c.used + r.estimate > l.limit)
  }

  lemma {:induction false} InnerFresh(l: Limits, r: Request, s: System, i: nat)
    requires i < |s.clients| && !AboutToEnd(l, r, s.clients[i])
    requires HoldsLock(s.clients[i]) ==> Fresh(l, r, s, s.clients[i])
    requires NoLaterThan(Ops(s.trace), s.clock)
    ensures var s' := Moved(l, r, s, i);
            HoldsLock(s'.clients[i]) ==> Fresh(l, r, s', s'.clients[i])
  {
    if s.clients[i].Summed? {
      SummedDecides(l, r, s, s.clients[i]);
    }
  }

  lemma {:induction false} InnerShape(l: Limits, r: Request, s: System, i: nat)
    requires i < |s.clients| && !AboutToEnd(l, r, s.clients[i])
    requires HoldsLock(s.clients[i]) <==> s.lock == Some(i)
    ensures var s' := Moved(l, r, s, i);
            && s'.trace == s.trace && s'.committed == s.committed && s'.clock == s.clock
            && s'.clients == s.clients[i := s'.clients[i]]
            && ViewOf(s'.clients[i]) == ViewOf(s.clients[i])
            && (s.lock == None || s.lock == Some(i) || (s'.lock == s.lock && s'.working == s.working))
            && (s'.lock == s.lock || s'.lock == Some(i))
            && (HoldsLock(s'.clients[i]) <==> s'.lock == Some(i))
            && (NonNegativeCharge(s.clients[i]) ==> NonNegativeCharge(s'.clients[i]))
  {
  }

  /** The steps that end no transaction. */
  lemma {:induction false} InnerStep(l: Limits, requests: seq<Request>, s: System, i: nat)
    requires Inv(l, requests, s) && i < |requests| && !AboutToEnd(l, requests[i], s.clients[i])
    ensures Inv(l, requests, Moved(l, requests[i], s, i))
  {
    hide Recorded, Run, Fresh, Moved;
    var s' := Moved(l, requests[i], s, i);
    assert NonNegativeCharge(s.clients[i]);
    InnerFresh(l, requests[i], s, i);
    InnerShape(l, requests[i], s, i);
    QuietStep(l, requests, s, s', i);
  }

  lemma {:induction false} MovedKeepsInv(l: Limits, requests: seq<Request>, s: System, i: nat)
    requires Inv(l, requests, s) && i < |requests| && requests[i].estimate >= 0
    ensures Inv(l, requests, Moved(l, requests[i], s, i))
  {
    hide Recorded, Run, Fresh, Moved;
    var c := s.clients[i];
    if c.Summed? && c.used + requests[i].estimate > l.limit {
      DeniedStep(l, requests, s, i);
    } else if c.Inserted? {
      AdmittedStep(l, requests, s, i);
    } else if c.Written? {
      SettledStep(l, requests, s, i);
    } else {
      InnerStep(l, requests, s, i);
    }
  }

  lemma {:induction false} AnsweredKeepsInv(l: Limits, requests: seq<Request>, s: System, i: nat, outcome: Outcome)
    requires Inv(l, requests, s) && i < |requests| && Sensible(requests)
    ensures Inv(l, requests, Answered(requests[i], s, i, outcome))
  {
    hide Recorded, Run, Fresh;
    var s' := Answered(requests[i], s, i, outcome);
    if s' != s {
      QuietStep(l, requests, s, s', i);
    }
  }

  lemma {:induction false} TickKeepsInv(l: Limits, requests: seq<Request>, s: System, elapsed: real)
    requires Inv(l, requests, s) && elapsed >= 0.0
    ensures Inv(l, requests, s.(clock := s.clock + elapsed))
  {
    hide Recorded, Run, Recent, SumOf, Reserve, Decision;
    var s' := s.(clock := s.clock + elapsed);
    forall i | 0 <= i < |requests| && HoldsLock(s.clients[i]) ensures Fresh(l, requests[i], s', s.clients[i]) {
      assert Fresh(l, requests[i], s, s.clients[i]);
    }
  }

  lemma {:induction false} NextKeepsInv(l: Limits, requests: seq<Request>, s: System, a: Action)
    requires Inv(l, requests, s) && Sensible(requests)
    ensures Inv(l, requests, Next(l, requests, s, a))
  {
    match a
    case Tick(elapsed) => if elapsed >= 0.0 { TickKeepsInv(l, requests, s, elapsed); }
    case Move(i) => if i < |requests| { MovedKeepsInv(l, requests, s, i); }
    case Answer(i, outcome) => if i < |requests| { AnsweredKeepsInv(l, requests, s, i, outcome); }
  }

  lemma {:induction false} ReachableInv(l: Limits, requests: seq<Request>, clock: real, actions: seq<Action>)
    requires Sensible(requests)
    ensures Inv(l, requests, Exec(l, requests, clock, actions))
  {
    if actions == [] {
      InitialInv(l, requests, clock);
    } else {
      var init := actions[..|actions| - 1];
      ReachableInv(l, requests, clock, init);
      NextKeepsInv(l, requests, Exec(l, requests, clock, init), actions[|actions| - 1]);
    }
  }
}
