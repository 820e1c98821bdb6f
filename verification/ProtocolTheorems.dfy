/** What holds in every reachable state of the router protocol. */
module ProtocolTheorems {
  import opened Ledger
  import opened History
  import opened Protocol
  import opened Interleaving
  import opened Serialisable

  // ----- Serialisability -----

  /** The operation `j` of the trace is the reservation of client `i`. */
  predicate IsReservationOf(s: System, j: int, i: nat)
    requires i < |s.clients|
  {
    && 0 <= j < |s.trace|
    && s.trace[j].client == i && s.trace[j].op.Reserving?
  }

  /** A client has been told its fate exactly when the trace holds its reservation,
      and then it holds it once. */
  ghost predicate DecidedOnce(s: System, i: nat)
    requires i < |s.clients|
  {
    && (ViewOf(s.clients[i]) != Nothing <==> exists j :: IsReservationOf(s, j, i))
    && forall j, k :: IsReservationOf(s, j, i) && IsReservationOf(s, k, i) ==> j == k
  }

  /** What a step does to the trace, seen from client `i`. */
  lemma {:induction false} StepAndReservation(l: Limits, requests: seq<Request>, s: System, a: Action, i: nat)
    requires |s.clients| == |requests| && i < |requests|
    ensures var s' := Next(l, requests, s, a);
            var (told, told') := (ViewOf(s.clients[i]) != Nothing, ViewOf(s'.clients[i]) != Nothing);
            || (s'.trace == s.trace && told' == told)
            || (exists t :: s'.trace == s.trace + [t]
                   && told' == (told || (t.client == i && t.op.Reserving?))
                   && (t.client == i && t.op.Reserving? ==> !told))
  {
    hide Recent, SumOf, Updated, Deleted;
    var s' := Next(l, requests, s, a);
    if s'.trace != s.trace {
      assert s'.trace == s.trace + [s'.trace[|s.trace|]];
    }
  }

  lemma {:induction false} EveryClientIsDecidedOnce(
    l: Limits, requests: seq<Request>, clock: real, actions: seq<Action>, i: nat)
    requires i < |requests|
    ensures DecidedOnce(Exec(l, requests, clock, actions), i)
  {
    hide Next;
    if actions != [] {
      var init, a := actions[..|actions| - 1], actions[|actions| - 1];
      var s, s' := Exec(l, requests, clock, init), Exec(l, requests, clock, actions);
      EveryClientIsDecidedOnce(l, requests, clock, init, i);
      StepAndReservation(l, requests, s, a, i);
      assert forall j :: j != |s.trace| ==> IsReservationOf(s', j, i) == IsReservationOf(s, j, i);
      if IsReservationOf(s', |s.trace|, i) {
        assert forall j :: !IsReservationOf(s, j, i);
      } else {
        assert forall j :: IsReservationOf(s', j, i) == IsReservationOf(s, j, i);
      }
    }
  }

  /** Any interleaving: the trace of ended transactions is a legal serial run with
      one reservation for every client that has been decided, it leads to the
      committed table, and every client was told what that run decides. */
  lemma {:induction false} EveryInterleavingIsSerial(
    l: Limits, requests: seq<Request>, clock: real, actions: seq<Action>)
    requires Sensible(requests)
    ensures var s := Exec(l, requests, clock, actions);
            && LegalRun(Ops(s.trace))
            && NoLaterThan(Ops(s.trace), s.clock)
            && s.committed == Run(l, Ops(s.trace)).table
            && DecisionsGiven(l, requests, Views(s.clients), s.trace)
            && forall i :: 0 <= i < |requests| ==> DecidedOnce(s, i)
  {
    hide Run, DecidedOnce, Exec;
    ReachableInv(l, requests, clock, actions);
    forall i | 0 <= i < |requests| ensures DecidedOnce(Exec(l, requests, clock, actions), i) {
      EveryClientIsDecidedOnce(l, requests, clock, actions, i);
    }
  }

  /** The sum a lock holder read is still the committed sum when it decides and
      when it inserts. */
  lemma {:induction false} ReadIsNeverStale(
    l: Limits, requests: seq<Request>, clock: real, actions: seq<Action>, i: nat)
    requires Sensible(requests) && i < |requests|
    ensures HeldSumIsCommitted(l, requests[i], Exec(l, requests, clock, actions), i)
  {
    ReachableInv(l, requests, clock, actions);
    HeldSum(l, requests[i], Exec(l, requests, clock, actions), i);
  }

  predicate HeldSumIsCommitted(l: Limits, r: Request, s: System, i: nat)
    requires i < |s.clients|
  {
    match s.clients[i]
    case Summed(now, used) => used == SumOf(s.committed.rows, r.tenant, now - l.window)
    case Inserted(ticket) => SumOf(s.committed.rows, r.tenant, ticket.ts - l.window) + r.estimate <= l.limit
    case _ => true
  }

  lemma {:induction false} HeldSum(l: Limits, r: Request, s: System, i: nat)
    requires i < |s.clients| && (HoldsLock(s.clients[i]) ==> Fresh(l, r, s, s.clients[i]))
    ensures HeldSumIsCommitted(l, r, s, i)
  {
    match s.clients[i]
    case Summed(now, used) => SummedDecides(l, r, s, s.clients[i]);
    case Inserted(ticket) => SumOfRecent(s.committed.rows, r.tenant, ticket.ts - l.window);
    case _ =>
  }

  // ----- Settlement -----

  /** The operation `j` of the trace is the settlement of client `i`. */
  predicate IsSettlementOf(s: System, j: int, i: nat)
    requires i < |s.clients|
  {
    && 0 <= j < |s.trace|
    && s.trace[j].client == i && !s.trace[j].op.Reserving?
  }

  /** The one settlement that a finished client must have made. */
  predicate SettledAs(s: System, j: int, i: nat)
    requires i < |s.clients|
  {
    && IsSettlementOf(s, j, i)
    && match s.clients[i]
       case Served(ticket, charge) => s.trace[j].op == Reconciling(ticket.id, charge)
       case Abandoned(ticket) => s.trace[j].op == Releasing(ticket.id)
       case _ => false
  }

  lemma {:induction false} SettledByOp(l: Limits, ops: seq<Op>, id: nat) returns (j: nat)
    requires 1 <= id <= |Run(l, ops).log| && !Run(l, ops).log[id - 1].phase.Pending?
    requires forall i, k :: 0 <= i < k < |ops| && !ops[i].Reserving? ==> !Settles(ops[k], ops[i].id)
    ensures j < |ops| && Settles(ops[j], id)
    ensures Run(l, ops).log[id - 1].phase.Settled? ==> ops[j] == Reconciling(id, Run(l, ops).log[id - 1].charge)
    ensures Run(l, ops).log[id - 1].phase.Released? ==> ops[j] == Releasing(id)
  {
    hide Reserve, Decision, Recent, SumOf, Updated, Deleted;
    var init, op := ops[..|ops| - 1], ops[|ops| - 1];
    if Settles(op, id) {
      j := |ops| - 1;
      UnsettledIsPending(l, init, id);
    } else {
      j := SettledByOp(l, init, id);
    }
  }

  /** A reservation is settled exactly once, by its own request and in the way its
      request ended; and never while the request is still under way. */
  lemma {:induction false} SettledExactlyOnce(
    l: Limits, requests: seq<Request>, clock: real, actions: seq<Action>, i: nat)
    requires Sensible(requests) && i < |requests|
    ensures var s := Exec(l, requests, clock, actions);
            && (s.clients[i].Served? || s.clients[i].Abandoned? <==> exists j :: IsSettlementOf(s, j, i))
            && (forall j :: IsSettlementOf(s, j, i) ==> SettledAs(s, j, i))
            && (forall j, k :: IsSettlementOf(s, j, i) && IsSettlementOf(s, k, i) ==> j == k)
  {
    ReachableInv(l, requests, clock, actions);
    var s := Exec(l, requests, clock, actions);
    SettledInState(l, requests, s, i);
  }

  lemma {:induction false} SettledInState(l: Limits, requests: seq<Request>, s: System, i: nat)
    requires Inv(l, requests, s) && i < |requests|
    ensures s.clients[i].Served? || s.clients[i].Abandoned? <==> exists j :: IsSettlementOf(s, j, i)
    ensures forall j :: IsSettlementOf(s, j, i) ==> SettledAs(s, j, i)
    ensures forall j, k :: IsSettlementOf(s, j, i) && IsSettlementOf(s, k, i) ==> j == k
  {
    hide DecisionGiven, SumAgrees, Run, Fresh;
    var ops, views := Ops(s.trace), Views(s.clients);
    var log := Run(l, ops).log;
    forall j, k | IsSettlementOf(s, j, i) && IsSettlementOf(s, k, i) ensures j == k {
      assert ops[j].id == views[i].ticket.id == ops[k].id;
      assert Settles(ops[k], ops[j].id) && Settles(ops[j], ops[k].id);
    }
    if HasTicket(views[i]) && !views[i].Holding? {
      var id := views[i].ticket.id;
      assert log[id - 1] == EntryOf(requests[i], views[i]);
      var j := SettledByOp(l, ops, id);
      OwnerOfId(l, requests, s, i, j);
      assert IsSettlementOf(s, j, i) && SettledAs(s, j, i);
    }
    forall j | IsSettlementOf(s, j, i) ensures HasTicket(views[i]) && !views[i].Holding? {
      assert log[ops[j].id - 1] == EntryOf(requests[i], views[i]);
    }
  }

  lemma {:induction false} OwnerOfId(l: Limits, requests: seq<Request>, s: System, i: nat, j: nat)
    requires Inv(l, requests, s) && i < |requests| && j < |s.trace| && !s.trace[j].op.Reserving?
    requires HasTicket(ViewOf(s.clients[i])) && s.trace[j].op.id == ViewOf(s.clients[i]).ticket.id
    ensures s.trace[j].client == i
  {
    var views, c := Views(s.clients), s.trace[j].client;
    assert views[c].ticket.id == views[i].ticket.id;
  }

  // ----- The window, and how far it can be overshot -----

  lemma {:induction false} LogTimes(l: Limits, ops: seq<Op>, now: real)
    requires NoLaterThan(ops, now)
    ensures forall k :: 0 <= k < |Run(l, ops).log| ==> Run(l, ops).log[k].ts <= now
  {
    if ops != [] {
      assert NoLaterThan(ops[..|ops| - 1], now);
      LogTimes(l, ops[..|ops| - 1], now);
    }
  }

  /** In every reachable state the sliding window holds over the whole history. */
  lemma {:induction false} WindowHoldsInEveryState(
    l: Limits, requests: seq<Request>, clock: real, actions: seq<Action>)
    requires Sensible(requests)
    ensures WindowSafe(l, Run(l, Ops(Exec(l, requests, clock, actions).trace)).log)
  {
    ReachableInv(l, requests, clock, actions);
    WindowHoldsOverHistory(l, Ops(Exec(l, requests, clock, actions).trace));
  }

  /** By how much a settled admission in the window cost more than it reserved. */
  function Excess(tenant: string, cutoff: real): Entry -> int {
    (e: Entry) =>
      if e.tenant == tenant && e.ts >= cutoff && e.phase.Settled? && e.charge > e.reserved
      then e.charge - e.reserved else 0
  }

  lemma {:induction false} ChargedWithinExcess(log: seq<Entry>, tenant: string, cutoff: real, to: real)
    requires Accounted(log) && forall k :: 0 <= k < |log| ==> log[k].ts <= to && log[k].reserved >= 0
    ensures Total(log, History.Charged(tenant, cutoff))
         <= Total(log, Capped(tenant, cutoff, to)) + Total(log, Excess(tenant, cutoff))
  {
    if log != [] {
      ChargedWithinExcess(log[..|log| - 1], tenant, cutoff, to);
    }
  }

  function Most(l: Limits): nat {
    if l.limit < 0 then 0 else l.limit
  }

  lemma {:induction false} OvershootInRun(l: Limits, ops: seq<Op>, now: real, tenant: string)
    requires LegalRun(ops) && NoLaterThan(ops, now)
    ensures SumOf(Run(l, ops).table.rows, tenant, now - l.window)
         <= Most(l) + Total(Run(l, ops).log, Excess(tenant, now - l.window))
  {
    var s, cutoff := Run(l, ops), now - l.window;
    var horizon := RunIsConsistent(l, ops, now);
    UsedIsLogged(s, horizon, tenant, cutoff);
    WindowHoldsOverHistory(l, ops);
    LogTimes(l, ops, now);
    assert IntervalSafe(l, s.log, tenant, cutoff);
    assert cutoff + l.window == now;
    ChargedWithinExcess(s.log, tenant, cutoff, now);
  }

  /** In every reachable state a tenant's windowed usage is at most the limit plus
      what reconciled admissions in the window cost beyond their reservations. */
  lemma {:induction false} OvershootIsBounded(
    l: Limits, requests: seq<Request>, clock: real, actions: seq<Action>, tenant: string)
    requires Sensible(requests)
    ensures var s := Exec(l, requests, clock, actions);
            SumOf(s.committed.rows, tenant, s.clock - l.window)
            <= Most(l) + Total(Run(l, Ops(s.trace)).log, Excess(tenant, s.clock - l.window))
  {
    hide Recorded, Run, SumOf, Exec, Total, DecisionsGiven;
    EveryInterleavingIsSerial(l, requests, clock, actions);
    var s := Exec(l, requests, clock, actions);
    OvershootInRun(l, Ops(s.trace), s.clock, tenant);
  }

  function PendingCount(log: seq<Entry>, tenant: string, cutoff: real): nat {
    if log == [] then 0 else
      var e := log[|log| - 1];
      PendingCount(log[..|log| - 1], tenant, cutoff)
      + if e.phase.Pending? && e.tenant == tenant && e.ts >= cutoff then 1 else 0
  }

  lemma {:induction false} PendingFillsWindow(log: seq<Entry>, tenant: string, cutoff: real, to: real, least: nat)
    requires Accounted(log) && Positive(log)
    requires forall k :: 0 <= k < |log| ==> log[k].ts <= to && log[k].reserved >= least
    ensures PendingCount(log, tenant, cutoff) * least <= Total(log, Capped(tenant, cutoff, to))
  {
    if log != [] {
      var init, e := log[..|log| - 1], log[|log| - 1];
      PendingFillsWindow(init, tenant, cutoff, to, least);
      var n := PendingCount(init, tenant, cutoff);
      assert (n + 1) * least == n * least + least;
    }
  }

  predicate ReservesAtLeast(ops: seq<Op>, least: int) {
    forall j :: 0 <= j < |ops| && ops[j].Reserving? ==> ops[j].estimate >= least
  }

  lemma {:induction false} LogReserves(l: Limits, ops: seq<Op>, least: int)
    requires ReservesAtLeast(ops, least)
    ensures forall k :: 0 <= k < |Run(l, ops).log| ==> Run(l, ops).log[k].reserved >= least
  {
    if ops != [] {
      var init := ops[..|ops| - 1];
      assert forall j :: 0 <= j < |init| ==> init[j] == ops[j];
      LogReserves(l, init, least);
    }
  }

  lemma {:induction false} PendingInRun(l: Limits, ops: seq<Op>, now: real, tenant: string, least: nat)
    requires LegalRun(ops) && NoLaterThan(ops, now) && least > 0
    requires ReservesAtLeast(ops, least)
    ensures PendingCount(Run(l, ops).log, tenant, now - l.window) <= Most(l) / least
  {
    var log, cutoff := Run(l, ops).log, now - l.window;
    var horizon := RunIsConsistent(l, ops, now);
    WindowHoldsOverHistory(l, ops);
    LogTimes(l, ops, now);
    LogReserves(l, ops, least);
    assert IntervalSafe(l, log, tenant, cutoff);
    assert cutoff + l.window == now;
    PendingFillsWindow(log, tenant, cutoff, now, least);
    QuotientBounds(PendingCount(log, tenant, cutoff), least, Most(l));
  }

  predicate AtLeast(requests: seq<Request>, least: int) {
    forall i :: 0 <= i < |requests| ==> requests[i].estimate >= least
  }

  lemma {:induction false} EstimatesAtLeast(
    l: Limits, requests: seq<Request>, views: seq<View>, trace: seq<Txn>, least: nat)
    requires DecisionsGiven(l, requests, views, trace) && AtLeast(requests, least)
    ensures ReservesAtLeast(Ops(trace), least)
  {
    forall j | 0 <= j < |trace| && Ops(trace)[j].Reserving? ensures Ops(trace)[j].estimate >= least {
      assert DecisionGiven(l, requests, views, trace, j);
    }
  }

  /** A tenant's unsettled reservations in the window number at most the limit
      divided by the smallest reservation. */
  lemma {:induction false} PendingIsBounded(
    l: Limits, requests: seq<Request>, clock: real, actions: seq<Action>, tenant: string, least: nat)
    requires least > 0 && AtLeast(requests, least)
    ensures var s := Exec(l, requests, clock, actions);
            PendingCount(Run(l, Ops(s.trace)).log, tenant, s.clock - l.window) <= Most(l) / least
  {
    hide Recorded, Run, SumOf, Exec, PendingCount, DecisionsGiven;
    assert Sensible(requests);
    EveryInterleavingIsSerial(l, requests, clock, actions);
    var s := Exec(l, requests, clock, actions);
    EstimatesAtLeast(l, requests, Views(s.clients), s.trace, least);
    PendingInRun(l, Ops(s.trace), s.clock, tenant, least);
  }

  lemma {:induction false} QuotientBounds(n: nat, k: nat, total: nat)
    requires k > 0 && n * k <= total
    ensures n <= total / k
  {
    if n > 0 {
      assert (n - 1) * k + k == n * k;
      QuotientExact(n - 1, k, total);
    }
  }

  // ----- Conservation -----

  predicate InFlight(c: Client) {
    !(c.Arriving? || c.Denied? || c.Served? || c.Abandoned?)
  }

  /** What a finished request cost in the window: its charge if it was served. */
  function CostIn(r: Request, c: Client, tenant: string, cutoff: real): int {
    if c.Served? && r.tenant == tenant && c.ticket.ts >= cutoff then c.charge else 0
  }

  function CostsIn(requests: seq<Request>, clients: seq<Client>, tenant: string, cutoff: real): int
    requires |requests| == |clients|
  {
    if clients == [] then 0 else
      var n := |clients| - 1;
      CostsIn(requests[..n], clients[..n], tenant, cutoff) + CostIn(requests[n], clients[n], tenant, cutoff)
  }

  lemma {:induction false} CostsAreCounted(
    requests: seq<Request>, clients: seq<Client>, tenant: string, cutoff: real)
    requires |requests| == |clients| && forall i :: 0 <= i < |clients| ==> !InFlight(clients[i])
    ensures CostsIn(requests, clients, tenant, cutoff) == CountedTotal(requests, Views(clients), tenant, cutoff)
  {
    if clients != [] {
      var n := |clients| - 1;
      CostsAreCounted(requests[..n], clients[..n], tenant, cutoff);
      assert Views(clients)[..n] == Views(clients[..n]);
      assert !InFlight(clients[n]);
    }
  }

  /** With no request in flight, a tenant's windowed usage is exactly what its
      served requests admitted in the window were charged: refusals and failures
      leave nothing behind. */
  lemma {:induction false} UsageIsConserved(
    l: Limits, requests: seq<Request>, clock: real, actions: seq<Action>, tenant: string)
    requires Sensible(requests)
    requires forall i :: 0 <= i < |requests| ==> !InFlight(Exec(l, requests, clock, actions).clients[i])
    ensures var s := Exec(l, requests, clock, actions);
            SumOf(s.committed.rows, tenant, s.clock - l.window)
            == CostsIn(requests, s.clients, tenant, s.clock - l.window)
  {
    hide Recorded, Run, SumOf, CountedTotal, CostsIn, Exec;
    ReachableInv(l, requests, clock, actions);
    var s := Exec(l, requests, clock, actions);
    LoggedSum(l, requests, s, tenant, s.clock);
    CostsAreCounted(requests, s.clients, tenant, s.clock - l.window);
  }

  // ----- Exact admission -----

  function Admissions(requests: seq<Request>, views: seq<View>, tenant: string): nat
    requires |requests| == |views|
  {
    if views == [] then 0 else
      var n := |views| - 1;
      Admissions(requests[..n], views[..n], tenant)
      + if requests[n].tenant == tenant && HasTicket(views[n]) then 1 else 0
  }

  function Refusals(requests: seq<Request>, views: seq<View>, tenant: string): nat
    requires |requests| == |views|
  {
    if views == [] then 0 else
      var n := |views| - 1;
      Refusals(requests[..n], views[..n], tenant)
      + if requests[n].tenant == tenant && views[n].Refusal? then 1 else 0
  }

  lemma {:induction false} CountsAfter(requests: seq<Request>, views: seq<View>, i: nat, v: View, tenant: string)
    requires |requests| == |views| && i < |views|
    ensures Admissions(requests, views[i := v], tenant)
         == Admissions(requests, views, tenant)
            - (if requests[i].tenant == tenant && HasTicket(views[i]) then 1 else 0)
            + (if requests[i].tenant == tenant && HasTicket(v) then 1 else 0)
    ensures Refusals(requests, views[i := v], tenant)
         == Refusals(requests, views, tenant)
            - (if requests[i].tenant == tenant && views[i].Refusal? then 1 else 0)
            + (if requests[i].tenant == tenant && v.Refusal? then 1 else 0)
  {
    var n := |views| - 1;
    if i == n {
      assert views[i := v][..n] == views[..n];
    } else {
      assert views[i := v][..n] == views[..n][i := v];
      CountsAfter(requests[..n], views[..n], i, v, tenant);
    }
  }

  /** No reservation of the tenant has been settled yet. */
  predicate NoneSettled(requests: seq<Request>, views: seq<View>, tenant: string) {
    && |requests| == |views|
    && forall i :: 0 <= i < |views| && requests[i].tenant == tenant ==> !views[i].Charged? && !views[i].Returned?
  }

  lemma {:induction false} AdmissionsFill(
    requests: seq<Request>, views: seq<View>, tenant: string, k: nat, cutoff: real)
    requires NoneSettled(requests, views, tenant)
    requires forall i :: 0 <= i < |views| && requests[i].tenant == tenant ==> requests[i].estimate == k
    requires forall i :: 0 <= i < |views| && HasTicket(views[i]) ==> views[i].ticket.ts >= cutoff
    ensures CountedTotal(requests, views, tenant, cutoff) == Admissions(requests, views, tenant) * k
  {
    if views != [] {
      var n := |views| - 1;
      AdmissionsFill(requests[..n], views[..n], tenant, k, cutoff);
      var a := Admissions(requests[..n], views[..n], tenant);
      assert (a + 1) * k == a * k + k;
    }
  }

  /** When a client read the clock. */
  predicate StartedAfter(c: Client, clock: real) {
    && ((c.Timed? || c.Swept? || c.Summed?) ==> c.now >= clock)
    && ((c.Inserted? || HasTicket(ViewOf(c))) ==> c.ticket.ts >= clock)
  }

  lemma {:induction false} StepsAfterClock(l: Limits, requests: seq<Request>, clock: real, s: System, a: Action)
    requires |s.clients| == |requests| && s.clock >= clock
    requires forall i :: 0 <= i < |requests| ==> StartedAfter(s.clients[i], clock)
    ensures var s' := Next(l, requests, s, a);
            s'.clock >= clock && forall i :: 0 <= i < |requests| ==> StartedAfter(s'.clients[i], clock)
  {
    hide Recent, SumOf, Updated, Deleted;
  }

  lemma {:induction false} ClockGoesForward(l: Limits, requests: seq<Request>, clock: real, actions: seq<Action>)
    ensures Exec(l, requests, clock, actions).clock >= clock
    ensures forall i :: 0 <= i < |requests| ==> StartedAfter(Exec(l, requests, clock, actions).clients[i], clock)
  {
    hide Next;
    if actions != [] {
      var init, a := actions[..|actions| - 1], actions[|actions| - 1];
      ClockGoesForward(l, requests, clock, init);
      StepsAfterClock(l, requests, clock, Exec(l, requests, clock, init), a);
    }
  }

  /** What exact admission says of one state. */
  predicate ExactlyAdmitted(requests: seq<Request>, views: seq<View>, tenant: string, most: int)
    requires |requests| == |views|
  {
    var (a, r) := (Admissions(requests, views, tenant), Refusals(requests, views, tenant));
    a == if a + r < most then a + r else most
  }

  lemma {:induction false} QuotientExact(a: nat, k: nat, limit: int)
    requires k > 0 && limit >= 0
    ensures a * k + k <= limit <==> a + 1 <= limit / k
  {
    assert (limit / k) * k + limit % k == limit;
    if a + 1 <= limit / k {
      assert (a + 1) * k <= (limit / k) * k by { MulMonotone(a + 1, limit / k, k); }
      assert (a + 1) * k == a * k + k;
    } else {
      assert (a + 1) * k >= (limit / k + 1) * k by { MulMonotone(limit / k + 1, a + 1, k); }
      assert (a + 1) * k == a * k + k;
      assert (limit / k + 1) * k == (limit / k) * k + k;
    }
  }

  lemma MulMonotone(a: nat, b: nat, k: nat)
    requires a <= b
    ensures a * k <= b * k
  {
  }

  lemma {:induction false} LoggedSum(l: Limits, requests: seq<Request>, s: System, tenant: string, now: real)
    requires Inv(l, requests, s) && NoLaterThan(Ops(s.trace), now)
    ensures SumOf(s.committed.rows, tenant, now - l.window)
         == CountedTotal(requests, Views(s.clients), tenant, now - l.window)
  {
    hide Run, SumOf, CountedTotal, Recent, Total, DecisionGiven;
    var state := Run(l, Ops(s.trace));
    var horizon := RunIsConsistent(l, Ops(s.trace), now);
    UsedIsLogged(state, horizon, tenant, now - l.window);
    assert SumAgrees(requests, Views(s.clients), state.log, tenant, now - l.window);
  }

  /** The conditions of exact admission: one tenant's requests are all of size
      `k`, none has been settled, and the whole run fits one window. */
  predicate OneBurst(l: Limits, requests: seq<Request>, clock: real, s: System, tenant: string, k: nat) {
    && |s.clients| == |requests|
    && s.clock <= clock + l.window
    && NoneSettled(requests, Views(s.clients), tenant)
    && forall j :: 0 <= j < |requests| && requests[j].tenant == tenant ==> requests[j].estimate == k
  }

  /** The sum that a client of the tenant decides on is its admissions so far. */
  lemma {:induction false} DecidingSum(
    l: Limits, requests: seq<Request>, clock: real, s: System, i: nat, tenant: string, k: nat)
    requires Inv(l, requests, s) && OneBurst(l, requests, clock, s, tenant, k)
    requires i < |requests| && requests[i].tenant == tenant && s.clients[i].Summed?
    requires forall j :: 0 <= j < |requests| ==> StartedAfter(s.clients[j], clock)
    ensures s.clients[i].used == Admissions(requests, Views(s.clients), tenant) * k
  {
    hide Recorded, Run, SumOf, CountedTotal, Admissions, Recent;
    var c := s.clients[i];
    assert c.now <= s.clock && NoLaterThan(Ops(s.trace), c.now) by {
      assert Fresh(l, requests[i], s, c);
    }
    SummedDecides(l, requests[i], s, c);
    LoggedSum(l, requests, s, tenant, c.now);
    forall j | 0 <= j < |requests| && HasTicket(Views(s.clients)[j])
      ensures Views(s.clients)[j].ticket.ts >= c.now - l.window
    {
      assert StartedAfter(s.clients[j], clock);
    }
    AdmissionsFill(requests, Views(s.clients), tenant, k, c.now - l.window);
  }

  /** What one step of a client can change in what it has been told. */
  lemma {:induction false} StepTells(l: Limits, r: Request, s: System, i: nat, a: Action)
    requires i < |s.clients| && (a == Move(i) || (a.Answer? && a.client == i))
    ensures var s' := if a.Move? then Moved(l, r, s, i) else Answered(r, s, i, a.outcome);
            var (v, v') := (ViewOf(s.clients[i]), ViewOf(s'.clients[i]));
            && s'.clients == s.clients[i := s'.clients[i]]
            && (|| v' == v
                || (HasTicket(v) && HasTicket(v'))
                || (v == Nothing && v'.Refusal? && s.clients[i].Summed? && s.clients[i].used + r.estimate > l.limit)
                || (v == Nothing && v'.Holding? && s.clients[i].Inserted?))
  {
  }

  lemma {:induction false} BurstStep(
    l: Limits, requests: seq<Request>, clock: real, s: System, a: Action, tenant: string, k: nat)
    requires Inv(l, requests, s) && k > 0 && l.limit >= 0
    requires forall j :: 0 <= j < |requests| ==> StartedAfter(s.clients[j], clock)
    requires OneBurst(l, requests, clock, s, tenant, k)
    requires ExactlyAdmitted(requests, Views(s.clients), tenant, l.limit / k)
    ensures ExactlyAdmitted(requests, Views(Next(l, requests, s, a).clients), tenant, l.limit / k)
  {
    hide Recorded, Run, Fresh, Moved, Answered, Admissions, Refusals;
    var s', views := Next(l, requests, s, a), Views(s.clients);
    if !a.Tick? && a.client < |requests| {
      var i := a.client;
      StepTells(l, requests[i], s, i, a);
      ViewsAfter(s.clients, i, s'.clients[i]);
      CountsAfter(requests, views, i, ViewOf(s'.clients[i]), tenant);
      if requests[i].tenant == tenant {
        BurstDecides(l, requests, clock, s, i, tenant, k);
      }
    } else {
      assert s'.clients == s.clients;
    }
  }

  /** A client that is about to be told its fate: refused only when no more of the
      burst fit, admitted only when one more does. */
  lemma {:induction false} BurstDecides(
    l: Limits, requests: seq<Request>, clock: real, s: System, i: nat, tenant: string, k: nat)
    requires Inv(l, requests, s) && k > 0 && l.limit >= 0 && i < |requests| && requests[i].tenant == tenant
    requires forall j :: 0 <= j < |requests| ==> StartedAfter(s.clients[j], clock)
    requires OneBurst(l, requests, clock, s, tenant, k)
    ensures var a := Admissions(requests, Views(s.clients), tenant);
            && (s.clients[i].Summed? && s.clients[i].used + k > l.limit ==> a >= l.limit / k)
            && (s.clients[i].Inserted? ==> a < l.limit / k)
  {
    hide Recorded, Run, SumOf, CountedTotal, Admissions, Recent;
    var c, a := s.clients[i], Admissions(requests, Views(s.clients), tenant);
    QuotientExact(a, k, l.limit);
    if c.Summed? {
      DecidingSum(l, requests, clock, s, i, tenant, k);
    } else if c.Inserted? {
      var now := c.ticket.ts;
      assert NoLaterThan(Ops(s.trace), now) && now <= s.clock by {
        assert Fresh(l, requests[i], s, c);
      }
      HeldSum(l, requests[i], s, i);
      LoggedSum(l, requests, s, tenant, now);
      forall j | 0 <= j < |requests| && HasTicket(Views(s.clients)[j])
        ensures Views(s.clients)[j].ticket.ts >= now - l.window
      {
        assert StartedAfter(s.clients[j], clock);
      }
      AdmissionsFill(requests, Views(s.clients), tenant, k, now - l.window);
    }
  }

  /** From an empty window, concurrent reservations of one size inside one window
      are admitted exactly up to the limit, in every interleaving. */
  lemma {:induction false} ExactAdmission(
    l: Limits, requests: seq<Request>, clock: real, actions: seq<Action>, tenant: string, k: nat)
    requires Sensible(requests) && k > 0 && l.limit >= 0
    requires OneBurst(l, requests, clock, Exec(l, requests, clock, actions), tenant, k)
    ensures ExactlyAdmitted(requests, Views(Exec(l, requests, clock, actions).clients), tenant, l.limit / k)
  {
    if actions == [] {
      NobodyDecided(requests, Views(Initial(requests, clock).clients), tenant);
    } else {
      var init, last := actions[..|actions| - 1], actions[|actions| - 1];
      var s := Exec(l, requests, clock, init);
      SettledStaysSettled(l, requests, s, last, tenant);
      ExactAdmission(l, requests, clock, init, tenant, k);
      ReachableInv(l, requests, clock, init);
      ClockGoesForward(l, requests, clock, init);
      BurstStep(l, requests, clock, s, last, tenant, k);
    }
  }

  lemma {:induction false} NobodyDecided(requests: seq<Request>, views: seq<View>, tenant: string)
    requires |requests| == |views| && forall i :: 0 <= i < |views| ==> views[i] == Nothing
    ensures Admissions(requests, views, tenant) == Refusals(requests, views, tenant) == 0
  {
    if views != [] {
      NobodyDecided(requests[..|views| - 1], views[..|views| - 1], tenant);
    }
  }

  lemma {:induction false} SettledStaysSettled(
    l: Limits, requests: seq<Request>, s: System, a: Action, tenant: string)
    requires |s.clients| == |requests|
    requires NoneSettled(requests, Views(Next(l, requests, s, a).clients), tenant)
    ensures NoneSettled(requests, Views(s.clients), tenant)
    ensures s.clock <= Next(l, requests, s, a).clock
  {
    var s' := Next(l, requests, s, a);
    forall i | 0 <= i < |requests| && requests[i].tenant == tenant
      ensures !Views(s.clients)[i].Charged? && !Views(s.clients)[i].Returned?
    {
      assert !Views(s'.clients)[i].Charged? && !Views(s'.clients)[i].Returned?;
      assert s.clients[i].Served? || s.clients[i].Abandoned? ==> s'.clients[i] == s.clients[i];
    }
  }
}
