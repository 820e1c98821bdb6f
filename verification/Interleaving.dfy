/** Every interleaving of the protocol is a serial run of its transactions. */
module Interleaving {
  import opened Ledger
  import opened History
  import opened Settlement
  import opened Protocol

  function Ops(trace: seq<Txn>): (ops: seq<Op>)
    ensures |ops| == |trace| && forall j :: 0 <= j < |trace| ==> ops[j] == trace[j].op
  {
    seq(|trace|, j requires 0 <= j < |trace| => trace[j].op)
  }

  // ----- What the ended transactions have told each client -----

  datatype View =
    | Nothing
    | Refusal(used: int)
    | Holding(ticket: Ticket)
    | Charged(ticket: Ticket, charge: int)
    | Returned(ticket: Ticket)

  function ViewOf(c: Client): View {
    match c
    case Primary(ticket) => Holding(ticket)
    case Secondary(ticket) => Holding(ticket)
    case Settling(ticket, _) => Holding(ticket)
    case Writing(ticket, _) => Holding(ticket)
    case Written(ticket, _) => Holding(ticket)
    case Denied(used) => Refusal(used)
    case Served(ticket, charge) => View.Charged(ticket, charge)
    case Abandoned(ticket) => Returned(ticket)
    case _ => Nothing
  }

  function Views(clients: seq<Client>): (views: seq<View>)
    ensures |views| == |clients| && forall i :: 0 <= i < |clients| ==> views[i] == ViewOf(clients[i])
  {
    seq(|clients|, i requires 0 <= i < |clients| => ViewOf(clients[i]))
  }

  predicate HasTicket(v: View) {
    v.Holding? || v.Charged? || v.Returned?
  }

  /** The log entry that a client's reservation must have. */
  function EntryOf(r: Request, v: View): Entry
    requires HasTicket(v)
  {
    var (id, ts) := (v.ticket.id, v.ticket.ts);
    match v
    case Holding(_) => Entry(id, r.tenant, ts, r.estimate, r.estimate, Pending)
    case Charged(_, charge) => Entry(id, r.tenant, ts, r.estimate, charge, Settled)
    case Returned(_) => Entry(id, r.tenant, ts, r.estimate, 0, Released)
  }

  /** What a client's reservation counts in a tenant's window. */
  function Counted(r: Request, v: View, tenant: string, cutoff: real): int {
    if !HasTicket(v) then 0 else History.Charged(tenant, cutoff)(EntryOf(r, v))
  }

  function CountedTotal(requests: seq<Request>, views: seq<View>, tenant: string, cutoff: real): int
    requires |requests| == |views|
  {
    if views == [] then 0 else
      var n := |views| - 1;
      CountedTotal(requests[..n], views[..n], tenant, cutoff) + Counted(requests[n], views[n], tenant, cutoff)
  }

  lemma {:induction false} CountedAfter(
    requests: seq<Request>, views: seq<View>, i: nat, v: View, tenant: string, cutoff: real)
    requires |requests| == |views| && i < |views|
    ensures CountedTotal(requests, views[i := v], tenant, cutoff)
         == CountedTotal(requests, views, tenant, cutoff)
            - Counted(requests[i], views[i], tenant, cutoff) + Counted(requests[i], v, tenant, cutoff)
  {
    var n := |views| - 1;
    if i == n {
      assert views[i := v][..n] == views[..n];
    } else {
      assert views[i := v][..n] == views[..n][i := v];
      CountedAfter(requests[..n], views[..n], i, v, tenant, cutoff);
    }
  }

  // ----- The record -----

  /** The decision of the `j`-th transaction, in the serial run, is the one its
      client was given. */
  predicate DecisionGiven(l: Limits, requests: seq<Request>, views: seq<View>, trace: seq<Txn>, j: nat)
    requires j < |trace| && trace[j].op.Reserving?
  {
    var (i, op) := (trace[j].client, trace[j].op);
    && i < |views| == |requests|
    && op.tenant == requests[i].tenant && op.estimate == requests[i].estimate
    && match Decision(l, Run(l, Ops(trace[..j])).table, op.now, op.tenant, op.estimate)
       case Refused(used) => views[i] == Refusal(used)
       case Admitted(id) => HasTicket(views[i]) && views[i].ticket == Ticket(id, op.now)
  }

  predicate LegalRun(ops: seq<Op>) {
    && Timely(ops) && SettledOnce(ops)
    && forall j :: 0 <= j < |ops| ==> NonNegative(ops[j])
  }

  predicate DecisionsGiven(l: Limits, requests: seq<Request>, views: seq<View>, trace: seq<Txn>) {
    forall j :: 0 <= j < |trace| && trace[j].op.Reserving? ==> DecisionGiven(l, requests, views, trace, j)
  }

  /** Whatever a transaction settled is no longer pending. */
  predicate SettledIds(ops: seq<Op>, log: seq<Entry>) {
    forall j :: 0 <= j < |ops| && !ops[j].Reserving? ==>
      1 <= ops[j].id <= |log| && !log[ops[j].id - 1].phase.Pending?
  }

  /** Each reservation is exactly one entry of the log, and nobody else's. */
  predicate TicketsHold(requests: seq<Request>, views: seq<View>, log: seq<Entry>) {
    && |requests| == |views|
    && (forall i :: 0 <= i < |views| && HasTicket(views[i]) ==>
          1 <= views[i].ticket.id <= |log| && log[views[i].ticket.id - 1] == EntryOf(requests[i], views[i]))
    && (forall i, k :: 0 <= i < k < |views| && HasTicket(views[i]) && HasTicket(views[k]) ==>
          views[i].ticket.id != views[k].ticket.id)
  }

  predicate SumAgrees(requests: seq<Request>, views: seq<View>, log: seq<Entry>, tenant: string, cutoff: real)
    requires |requests| == |views|
  {
    CountedTotal(requests, views, tenant, cutoff) == Total(log, History.Charged(tenant, cutoff))
  }

  ghost predicate SumsAgree(requests: seq<Request>, views: seq<View>, log: seq<Entry>) {
    && |requests| == |views|
    && forall tenant: string, cutoff: real :: SumAgrees(requests, views, log, tenant, cutoff)
  }

  /** Every settlement was made by the client whose reservation it names. */
  predicate OwnSettlements(views: seq<View>, trace: seq<Txn>) {
    forall j :: 0 <= j < |trace| && !trace[j].op.Reserving? ==>
      && trace[j].client < |views| && HasTicket(views[trace[j].client])
      && views[trace[j].client].ticket.id == trace[j].op.id
  }

  ghost predicate Recorded(l: Limits, requests: seq<Request>, views: seq<View>, trace: seq<Txn>) {
    var ops := Ops(trace);
    var log := Run(l, ops).log;
    && LegalRun(ops)
    && DecisionsGiven(l, requests, views, trace)
    && OwnSettlements(views, trace)
    && SettledIds(ops, log)
    && TicketsHold(requests, views, log)
    && SumsAgree(requests, views, log)
  }

  lemma {:induction false} OpsAppend(l: Limits, trace: seq<Txn>, txn: Txn)
    ensures Ops(trace + [txn]) == Ops(trace) + [txn.op]
    ensures Run(l, Ops(trace + [txn])) == Apply(l, Run(l, Ops(trace)), txn.op)
  {
    var ops := Ops(trace) + [txn.op];
    assert ops[..|ops| - 1] == Ops(trace);
  }

  lemma {:induction false} DecisionsKept(
    l: Limits, requests: seq<Request>, views: seq<View>, trace: seq<Txn>, i: nat, v: View, txn: Txn)
    requires DecisionsGiven(l, requests, views, trace) && i < |views|
    requires views[i] == Nothing || (HasTicket(views[i]) && HasTicket(v) && v.ticket == views[i].ticket)
    requires txn.op.Reserving? ==> DecisionGiven(l, requests, views[i := v], trace + [txn], |trace|)
    ensures DecisionsGiven(l, requests, views[i := v], trace + [txn])
  {
    var trace', views' := trace + [txn], views[i := v];
    forall j | 0 <= j < |trace'| && trace'[j].op.Reserving? ensures DecisionGiven(l, requests, views', trace', j) {
      if j < |trace| {
        assert trace'[..j] == trace[..j];
        assert DecisionGiven(l, requests, views, trace, j);
      }
    }
  }

  lemma {:induction false} OwnSettlementsKept(views: seq<View>, trace: seq<Txn>, i: nat, v: View, txn: Txn)
    requires OwnSettlements(views, trace) && i < |views|
    requires views[i] == Nothing || (HasTicket(views[i]) && HasTicket(v) && v.ticket == views[i].ticket)
    requires !txn.op.Reserving? ==> txn.client == i && HasTicket(v) && v.ticket.id == txn.op.id
    ensures OwnSettlements(views[i := v], trace + [txn])
  {
  }

  lemma {:induction false} DecisionRecorded(
    l: Limits, requests: seq<Request>, views: seq<View>, trace: seq<Txn>, i: nat, op: Op, v: View)
    requires DecisionsGiven(l, requests, views, trace) && i < |views| == |requests| && views[i] == Nothing
    requires op.Reserving? && op.tenant == requests[i].tenant && op.estimate == requests[i].estimate
    requires match Decision(l, Run(l, Ops(trace)).table, op.now, op.tenant, op.estimate)
             case Refused(used) => v == Refusal(used)
             case Admitted(id) => v == Holding(Ticket(id, op.now))
    ensures DecisionsGiven(l, requests, views[i := v], trace + [Txn(i, op)])
  {
    assert (trace + [Txn(i, op)])[..|trace|] == trace;
    DecisionsKept(l, requests, views, trace, i, v, Txn(i, op));
  }

  // ----- A reservation ends -----

  lemma {:induction false} SumsAfterAdmission(
    requests: seq<Request>, views: seq<View>, log: seq<Entry>, i: nat, v: View)
    requires SumsAgree(requests, views, log) && i < |views| && views[i] == Nothing && HasTicket(v)
    ensures SumsAgree(requests, views[i := v], log + [EntryOf(requests[i], v)])
  {
    var entry, views' := EntryOf(requests[i], v), views[i := v];
    var log' := log + [entry];
    forall tenant: string, cutoff: real ensures SumAgrees(requests, views', log', tenant, cutoff) {
      assert SumAgrees(requests, views, log, tenant, cutoff);
      CountedAfter(requests, views, i, v, tenant, cutoff);
      TotalAppend(log, entry, History.Charged(tenant, cutoff));
    }
  }

  lemma {:induction false} SumsAfterRefusal(
    requests: seq<Request>, views: seq<View>, log: seq<Entry>, i: nat, used: int)
    requires SumsAgree(requests, views, log) && i < |views| && views[i] == Nothing
    ensures SumsAgree(requests, views[i := Refusal(used)], log)
  {
    var views' := views[i := Refusal(used)];
    forall tenant: string, cutoff: real ensures SumAgrees(requests, views', log, tenant, cutoff) {
      assert SumAgrees(requests, views, log, tenant, cutoff);
      CountedAfter(requests, views, i, Refusal(used), tenant, cutoff);
    }
  }

  lemma {:induction false} SumsAfterSettlement(
    requests: seq<Request>, views: seq<View>, log: seq<Entry>, i: nat, v: View, k: nat)
    requires SumsAgree(requests, views, log) && i < |views| && k < |log|
    requires HasTicket(views[i]) && HasTicket(v) && log[k] == EntryOf(requests[i], views[i])
    ensures SumsAgree(requests, views[i := v], log[k := EntryOf(requests[i], v)])
  {
    var entry, views' := EntryOf(requests[i], v), views[i := v];
    var log' := log[k := entry];
    forall tenant: string, cutoff: real ensures SumAgrees(requests, views', log', tenant, cutoff) {
      assert SumAgrees(requests, views, log, tenant, cutoff);
      CountedAfter(requests, views, i, v, tenant, cutoff);
      TotalUpdate(log, k, entry, History.Charged(tenant, cutoff));
    }
  }

  lemma {:induction false} TicketsAfterAdmission(
    requests: seq<Request>, views: seq<View>, log: seq<Entry>, i: nat, v: View)
    requires TicketsHold(requests, views, log) && i < |views| && HasTicket(v) && v.ticket.id == |log| + 1
    ensures TicketsHold(requests, views[i := v], log + [EntryOf(requests[i], v)])
  {
  }

  lemma {:induction false} TicketsAfterRefusal(
    requests: seq<Request>, views: seq<View>, log: seq<Entry>, i: nat, used: int)
    requires TicketsHold(requests, views, log) && i < |views|
    ensures TicketsHold(requests, views[i := Refusal(used)], log)
  {
  }

  lemma {:induction false} TicketsAfterSettlement(
    requests: seq<Request>, views: seq<View>, log: seq<Entry>, i: nat, v: View)
    requires TicketsHold(requests, views, log) && i < |views| && HasTicket(views[i])
    requires HasTicket(v) && v.ticket == views[i].ticket
    ensures TicketsHold(requests, views[i := v], log[v.ticket.id - 1 := EntryOf(requests[i], v)])
  {
  }

  lemma {:induction false} LegalAfterReservation(ops: seq<Op>, op: Op)
    requires LegalRun(ops) && op.Reserving? && op.estimate >= 0 && NoLaterThan(ops, op.now)
    ensures LegalRun(ops + [op])
  {
  }

  lemma {:induction false} LegalAfterSettlement(ops: seq<Op>, log: seq<Entry>, op: Op)
    requires LegalRun(ops) && !op.Reserving? && NonNegative(op)
    requires SettledIds(ops, log) && 1 <= op.id <= |log| && log[op.id - 1].phase.Pending?
    ensures LegalRun(ops + [op])
  {
  }

  lemma {:induction false} SettledIdsKept(ops: seq<Op>, op: Op, log: seq<Entry>, more: seq<Entry>)
    requires SettledIds(ops, log) && op.Reserving?
    ensures SettledIds(ops + [op], log + more)
  {
  }

  lemma {:induction false} RecordRefusal(
    l: Limits, requests: seq<Request>, views: seq<View>, trace: seq<Txn>, i: nat, op: Op, used: int)
    requires Recorded(l, requests, views, trace) && i < |views| && views[i] == Nothing
    requires op.Reserving? && op.tenant == requests[i].tenant && op.estimate == requests[i].estimate >= 0
    requires NoLaterThan(Ops(trace), op.now)
    requires Decision(l, Run(l, Ops(trace)).table, op.now, op.tenant, op.estimate) == Refused(used)
    ensures Recorded(l, requests, views[i := Refusal(used)], trace + [Txn(i, op)])
  {
    hide Recent, SumOf, Total, CountedTotal, DecisionGiven;
    var s := Run(l, Ops(trace));
    OpsAppend(l, trace, Txn(i, op));
    LegalAfterReservation(Ops(trace), op);
    DecisionRecorded(l, requests, views, trace, i, op, Refusal(used));
    OwnSettlementsKept(views, trace, i, Refusal(used), Txn(i, op));
    SettledIdsKept(Ops(trace), op, s.log, []);
    assert s.log + [] == s.log;
    SumsAfterRefusal(requests, views, s.log, i, used);
    TicketsAfterRefusal(requests, views, s.log, i, used);
  }

  lemma {:induction false} RecordAdmission(
    l: Limits, requests: seq<Request>, views: seq<View>, trace: seq<Txn>, i: nat, op: Op, v: View)
    requires Recorded(l, requests, views, trace) && i < |views| && views[i] == Nothing
    requires op.Reserving? && op.tenant == requests[i].tenant && op.estimate == requests[i].estimate >= 0
    requires NoLaterThan(Ops(trace), op.now)
    requires v.Holding? && v.ticket.ts == op.now
    requires Decision(l, Run(l, Ops(trace)).table, op.now, op.tenant, op.estimate) == Admitted(v.ticket.id)
    ensures Recorded(l, requests, views[i := v], trace + [Txn(i, op)])
  {
    hide Recent, SumOf, Total, CountedTotal, DecisionGiven;
    var s, entry := Run(l, Ops(trace)), EntryOf(requests[i], v);
    var horizon := RunIsConsistent(l, Ops(trace), op.now);
    OpsAppend(l, trace, Txn(i, op));
    LegalAfterReservation(Ops(trace), op);
    DecisionRecorded(l, requests, views, trace, i, op, v);
    OwnSettlementsKept(views, trace, i, v, Txn(i, op));
    assert Apply(l, s, op).log == s.log + [entry];
    SettledIdsKept(Ops(trace), op, s.log, [entry]);
    SumsAfterAdmission(requests, views, s.log, i, v);
    TicketsAfterAdmission(requests, views, s.log, i, v);
  }

  // ----- A settlement ends -----

  function Ending(ticket: Ticket, how: Settlement): View {
    match how
    case Charge(tokens) => View.Charged(ticket, tokens)
    case Withdraw => Returned(ticket)
  }

  lemma {:induction false} SettledIdsAfter(ops: seq<Op>, op: Op, log: seq<Entry>, entry: Entry)
    requires SettledIds(ops, log) && !op.Reserving? && 1 <= op.id <= |log| && !entry.phase.Pending?
    ensures SettledIds(ops + [op], log[op.id - 1 := entry])
  {
  }

  lemma {:induction false} RecordSettlement(
    l: Limits, requests: seq<Request>, views: seq<View>, trace: seq<Txn>, i: nat, how: Settlement, v: View)
    requires Recorded(l, requests, views, trace) && i < |views| && views[i].Holding?
    requires v == Ending(views[i].ticket, how) && (how.Charge? ==> how.tokens >= 0)
    ensures Recorded(l, requests, views[i := v], trace + [Txn(i, SettlementOp(v.ticket.id, how))])
  {
    hide Recent, SumOf, Updated, Deleted, Total, CountedTotal, DecisionGiven;
    var op, s := SettlementOp(v.ticket.id, how), Run(l, Ops(trace));
    var k := v.ticket.id - 1;
    var entry := EntryOf(requests[i], v);
    assert s.log[k] == EntryOf(requests[i], views[i]);
    assert Apply(l, s, op).log == s.log[k := entry];
    OpsAppend(l, trace, Txn(i, op));
    LegalAfterSettlement(Ops(trace), s.log, op);
    DecisionsKept(l, requests, views, trace, i, v, Txn(i, op));
    OwnSettlementsKept(views, trace, i, v, Txn(i, op));
    SettledIdsAfter(Ops(trace), op, s.log, entry);
    TicketsAfterSettlement(requests, views, s.log, i, v);
    SumsAfterSettlement(requests, views, s.log, i, v, k);
  }
}
