/** Serial runs of the limiter's transactions, with a log of every admission. */
module History {
  import opened Wrappers
  import opened Ledger

  datatype Phase = Pending | Settled | Released

  /** An admission: what was reserved, when, and what it is charged now. */
  datatype Entry = Entry(id: nat, tenant: string, ts: real, reserved: int, charge: int, phase: Phase)

  datatype State = State(table: Table, log: seq<Entry>)

  const EMPTY := State(Table([], 0), [])

  datatype Op =
    | Reserving(now: real, tenant: string, estimate: int)
    | Reconciling(id: nat, actual: int)
    | Releasing(id: nat)

  predicate Logged(log: seq<Entry>, id: nat) {
    1 <= id <= |log| && !log[id - 1].phase.Released?
  }

  function Apply(l: Limits, s: State, op: Op): State {
    match op
    case Reserving(now, tenant, estimate) =>
      var table := Reserve(l, s.table, now, tenant, estimate);
      (match Decision(l, s.table, now, tenant, estimate)
       case Refused(_) => State(table, s.log)
       case Admitted(id) => State(table, s.log + [Entry(id, tenant, now, estimate, estimate, Pending)]))
    case Reconciling(id, actual) =>
      State(Reconcile(s.table, id, actual),
            if Logged(s.log, id) then s.log[id - 1 := Reconciled(s.log[id - 1], actual)] else s.log)
    case Releasing(id) =>
      State(Release(s.table, id),
            if Logged(s.log, id) then s.log[id - 1 := Withdrawn(s.log[id - 1])] else s.log)
  }

  function Run(l: Limits, ops: seq<Op>): State {
    if ops == [] then EMPTY else Apply(l, Run(l, ops[..|ops| - 1]), ops[|ops| - 1])
  }

  // ----- Sums over the log -----

  function Total(log: seq<Entry>, w: Entry -> int): int {
    if log == [] then 0 else Total(log[..|log| - 1], w) + w(log[|log| - 1])
  }

  lemma {:induction false} TotalAppend(log: seq<Entry>, e: Entry, w: Entry -> int)
    ensures Total(log + [e], w) == Total(log, w) + w(e)
  {
    assert (log + [e])[..|log|] == log;
  }

  lemma {:induction false} TotalUpdate(log: seq<Entry>, k: nat, e: Entry, w: Entry -> int)
    requires k < |log|
    ensures Total(log[k := e], w) == Total(log, w) - w(log[k]) + w(e)
  {
    var n := |log| - 1;
    if k == n {
      assert log[k := e][..n] == log[..n];
    } else {
      assert log[k := e][..n] == log[..n][k := e];
      TotalUpdate(log[..n], k, e, w);
    }
  }

  lemma {:induction false} TotalMonotone(log: seq<Entry>, w: Entry -> int, v: Entry -> int)
    requires forall k :: 0 <= k < |log| ==> w(log[k]) <= v(log[k])
    ensures Total(log, w) <= Total(log, v)
  {
    if log != [] {
      TotalMonotone(log[..|log| - 1], w, v);
    }
  }

  /** What an entry counts in a tenant's window starting at `cutoff`. */
  function Charged(tenant: string, cutoff: real): Entry -> int {
    (e: Entry) => if e.tenant == tenant && e.ts >= cutoff then e.charge else 0
  }

  /** What an entry counts in the closed interval `[from, to]`, up to its reservation. */
  function Capped(tenant: string, from: real, to: real): Entry -> int {
    (e: Entry) => if e.tenant == tenant && from <= e.ts <= to then Min(e.reserved, e.charge) else 0
  }

  // ----- The table is a window onto the log -----

  function RowOf(e: Entry, cutoff: real): seq<Row> {
    if e.phase.Released? || e.ts < cutoff then [] else [Row(e.id, e.tenant, e.ts, e.charge)]
  }

  /** The rows the log stands for: unreleased admissions since `cutoff`. */
  function RowsOf(log: seq<Entry>, cutoff: real): seq<Row> {
    if log == [] then [] else RowsOf(log[..|log| - 1], cutoff) + RowOf(log[|log| - 1], cutoff)
  }

  predicate Numbered(log: seq<Entry>) {
    forall k :: 0 <= k < |log| ==> log[k].id == k + 1
  }

  predicate Accounted(log: seq<Entry>) {
    forall k :: 0 <= k < |log| ==>
      && (log[k].phase.Pending? ==> log[k].charge == log[k].reserved)
      && (log[k].phase.Released? ==> log[k].charge == 0)
  }

  /** Ids count up from 1 without reuse; and whatever has been evicted, the table
      shows every window that begins at or after `horizon` as the log has it. */
  ghost predicate Consistent(s: State, horizon: real) {
    && Numbered(s.log) && |s.log| == s.table.lastId
    && Accounted(s.log)
    && forall cutoff: real :: cutoff >= horizon ==> Recent(s.table.rows, cutoff) == RowsOf(s.log, cutoff)
  }

  lemma {:induction false} SumIsLogged(log: seq<Entry>, tenant: string, cutoff: real)
    requires Accounted(log)
    ensures SumOf(RowsOf(log, cutoff), tenant, cutoff) == Total(log, Charged(tenant, cutoff))
  {
    if log != [] {
      var init, e := log[..|log| - 1], log[|log| - 1];
      assert Accounted(init);
      SumIsLogged(init, tenant, cutoff);
      SumConcat(RowsOf(init, cutoff), RowOf(e, cutoff), tenant, cutoff);
      assert RowOf(e, cutoff) != [] ==> RowOf(e, cutoff)[..0] == [];
    }
  }

  /** `used` is the sum of the current charges of the admissions in the window. */
  lemma {:induction false} UsedIsLogged(s: State, horizon: real, tenant: string, cutoff: real)
    requires Consistent(s, horizon) && cutoff >= horizon
    ensures SumOf(s.table.rows, tenant, cutoff) == Total(s.log, Charged(tenant, cutoff))
  {
    SumOfRecent(s.table.rows, tenant, cutoff);
    SumIsLogged(s.log, tenant, cutoff);
  }

  lemma {:induction false} AbsentId(log: seq<Entry>, cutoff: real, id: nat, tokens: int)
    requires forall k :: 0 <= k < |log| ==> log[k].id != id || log[k].phase.Released?
    ensures Updated(RowsOf(log, cutoff), id, tokens) == RowsOf(log, cutoff)
    ensures Deleted(RowsOf(log, cutoff), id) == RowsOf(log, cutoff)
  {
    if log != [] {
      var init, e := log[..|log| - 1], log[|log| - 1];
      AbsentId(init, cutoff, id, tokens);
      UpdatedConcat(RowsOf(init, cutoff), RowOf(e, cutoff), id, tokens);
      assert RowOf(e, cutoff) != [] ==> RowOf(e, cutoff)[..0] == [];
    }
  }

  function Reconciled(e: Entry, actual: int): Entry {
    e.(charge := actual, phase := Settled)
  }

  function Withdrawn(e: Entry): Entry {
    e.(charge := 0, phase := Released)
  }

  lemma {:induction false} RowAfterSettling(e: Entry, cutoff: real, tokens: int)
    requires !e.phase.Released?
    ensures RowOf(Reconciled(e, tokens), cutoff) == Updated(RowOf(e, cutoff), e.id, tokens)
    ensures RowOf(Withdrawn(e), cutoff) == Deleted(RowOf(e, cutoff), e.id)
  {
    assert RowOf(e, cutoff) != [] ==> RowOf(e, cutoff)[..0] == [];
  }

  lemma {:induction false} RowsAfterReconcile(log: seq<Entry>, cutoff: real, id: nat, tokens: int)
    requires Numbered(log) && Logged(log, id)
    ensures RowsOf(log[id - 1 := Reconciled(log[id - 1], tokens)], cutoff) == Updated(RowsOf(log, cutoff), id, tokens)
  {
    var n := |log| - 1;
    var init, e, log' := log[..n], log[n], log[id - 1 := Reconciled(log[id - 1], tokens)];
    UpdatedConcat(RowsOf(init, cutoff), RowOf(e, cutoff), id, tokens);
    if id - 1 == n {
      assert log'[..n] == init;
      AbsentId(init, cutoff, id, tokens);
      RowAfterSettling(e, cutoff, tokens);
    } else {
      assert log'[..n] == init[id - 1 := Reconciled(init[id - 1], tokens)];
      RowsAfterReconcile(init, cutoff, id, tokens);
      AbsentId([e], cutoff, id, tokens);
      OneRow(e, cutoff);
    }
  }

  lemma {:induction false} OneRow(e: Entry, cutoff: real)
    ensures RowsOf([e], cutoff) == RowOf(e, cutoff)
  {
    assert [e][..0] == [];
    assert [] + RowOf(e, cutoff) == RowOf(e, cutoff);
  }

  lemma {:induction false} RowsAfterRelease(log: seq<Entry>, cutoff: real, id: nat)
    requires Numbered(log) && Logged(log, id)
    ensures RowsOf(log[id - 1 := Withdrawn(log[id - 1])], cutoff) == Deleted(RowsOf(log, cutoff), id)
  {
    var n := |log| - 1;
    var init, e, log' := log[..n], log[n], log[id - 1 := Withdrawn(log[id - 1])];
    UpdatedConcat(RowsOf(init, cutoff), RowOf(e, cutoff), id, 0);
    if id - 1 == n {
      assert log'[..n] == init;
      AbsentId(init, cutoff, id, 0);
      RowAfterSettling(e, cutoff, 0);
    } else {
      assert log'[..n] == init[id - 1 := Withdrawn(init[id - 1])];
      RowsAfterRelease(init, cutoff, id);
      AbsentId([e], cutoff, id, 0);
      OneRow(e, cutoff);
    }
  }

  /** How far eviction has gone after one more transaction: even if the clock has
      been set back, no further than before. */
  function HorizonAfter(l: Limits, s: State, horizon: real, op: Op): real {
    match op
    case Reserving(now, tenant, estimate) =>
      if Decision(l, s.table, now, tenant, estimate).Admitted? && horizon < now - l.window
      then now - l.window else horizon
    case _ => horizon
  }

  lemma {:induction false} AdmissionSeen(rows: seq<Row>, log: seq<Entry>, start: real, e: Entry, cutoff: real)
    requires start <= cutoff && Recent(rows, cutoff) == RowsOf(log, cutoff) && e.phase.Pending?
    ensures Recent(Recent(rows, start) + [Row(e.id, e.tenant, e.ts, e.charge)], cutoff) == RowsOf(log + [e], cutoff)
  {
    var row := Row(e.id, e.tenant, e.ts, e.charge);
    RecentConcat(Recent(rows, start), [row], cutoff);
    RecentTwice(rows, start, cutoff);
    assert [row][..0] == [] && (log + [e])[..|log|] == log;
  }

  lemma {:induction false} AdmissionKeepsConsistent(l: Limits, s: State, horizon: real, op: Op)
    requires Consistent(s, horizon) && op.Reserving?
    ensures Consistent(Apply(l, s, op), HorizonAfter(l, s, horizon, op))
  {
    hide Recent, RowsOf, SumOf;
    var decision := Decision(l, s.table, op.now, op.tenant, op.estimate);
    if decision.Admitted? {
      var start := op.now - l.window;
      var entry := Entry(decision.id, op.tenant, op.now, op.estimate, op.estimate, Pending);
      var s' := Apply(l, s, op);
      forall cutoff: real | cutoff >= start && cutoff >= horizon
        ensures Recent(s'.table.rows, cutoff) == RowsOf(s'.log, cutoff)
      {
        AdmissionSeen(s.table.rows, s.log, start, entry, cutoff);
      }
    }
  }

  lemma {:induction false} SettlementKeepsConsistent(l: Limits, s: State, horizon: real, op: Op)
    requires Consistent(s, horizon) && !op.Reserving?
    ensures Consistent(Apply(l, s, op), horizon)
  {
    var s' := Apply(l, s, op);
    forall cutoff: real | cutoff >= horizon ensures Recent(s'.table.rows, cutoff) == RowsOf(s'.log, cutoff) {
      SettlementSeen(l, s, op, cutoff);
    }
  }

  lemma {:induction false} SettlementSeen(l: Limits, s: State, op: Op, cutoff: real)
    requires !op.Reserving? && Numbered(s.log) && Recent(s.table.rows, cutoff) == RowsOf(s.log, cutoff)
    ensures Recent(Apply(l, s, op).table.rows, cutoff) == RowsOf(Apply(l, s, op).log, cutoff)
  {
    hide Recent, RowsOf, Updated, Deleted;
    var tokens := if op.Reconciling? then op.actual else 0;
    RecentSettles(s.table.rows, op.id, tokens, cutoff);
    if !Logged(s.log, op.id) {
      AbsentId(s.log, cutoff, op.id, tokens);
    } else if op.Reconciling? {
      RowsAfterReconcile(s.log, cutoff, op.id, tokens);
    } else {
      RowsAfterRelease(s.log, cutoff, op.id);
    }
  }

  /** Every transaction, whatever clock it reads, keeps the table a window onto the log. */
  lemma {:induction false} ApplyKeepsConsistent(l: Limits, s: State, horizon: real, op: Op)
    requires Consistent(s, horizon)
    ensures Consistent(Apply(l, s, op), HorizonAfter(l, s, horizon, op))
  {
    if op.Reserving? {
      AdmissionKeepsConsistent(l, s, horizon, op);
    } else {
      SettlementKeepsConsistent(l, s, horizon, op);
    }
  }

  // ----- Runs -----

  /** The clock readings of a run never decrease. */
  predicate Timely(ops: seq<Op>) {
    forall i, j :: 0 <= i < j < |ops| && ops[i].Reserving? && ops[j].Reserving? ==> ops[i].now <= ops[j].now
  }

  predicate NoLaterThan(ops: seq<Op>, now: real) {
    forall i :: 0 <= i < |ops| && ops[i].Reserving? ==> ops[i].now <= now
  }

  lemma {:induction false} RunIsConsistent(l: Limits, ops: seq<Op>, now: real) returns (horizon: real)
    requires Timely(ops) && NoLaterThan(ops, now)
    ensures Consistent(Run(l, ops), horizon) && horizon <= now - l.window
  {
    if ops == [] {
      horizon := now - l.window;
    } else {
      var init, op := ops[..|ops| - 1], ops[|ops| - 1];
      horizon := RunIsConsistent(l, init, if op.Reserving? then op.now else now);
      ApplyKeepsConsistent(l, Run(l, init), horizon, op);
      horizon := HorizonAfter(l, Run(l, init), horizon, op);
    }
  }

  // ----- The sliding window -----

  predicate NonNegative(op: Op) {
    (op.Reserving? ==> op.estimate >= 0) && (op.Reconciling? ==> op.actual >= 0)
  }

  predicate Settles(op: Op, id: nat) {
    !op.Reserving? && op.id == id
  }

  predicate SettledOnce(ops: seq<Op>) {
    forall i, j :: 0 <= i < j < |ops| && !ops[i].Reserving? ==> !Settles(ops[j], ops[i].id)
  }

  predicate Positive(log: seq<Entry>) {
    forall k :: 0 <= k < |log| ==> log[k].reserved >= 0 && log[k].charge >= 0
  }

  /** In every closed interval as long as the window, a tenant's admissions, each
      counted at most at what it reserved, fit the limit. */
  ghost predicate WindowSafe(l: Limits, log: seq<Entry>) {
    forall tenant: string, from: real :: IntervalSafe(l, log, tenant, from)
  }

  predicate IntervalSafe(l: Limits, log: seq<Entry>, tenant: string, from: real) {
    Total(log, Capped(tenant, from, from + l.window)) <= if l.limit < 0 then 0 else l.limit
  }

  /** An admission's estimate and everything the tenant is capped at from `from` on fit the limit. */
  lemma {:induction false} AdmissionFits(l: Limits, s: State, horizon: real, op: Op, from: real, to: real)
    requires Consistent(s, horizon) && op.Reserving? && horizon <= op.now - l.window <= from
    requires Positive(s.log) && Decision(l, s.table, op.now, op.tenant, op.estimate).Admitted?
    ensures Total(s.log, Capped(op.tenant, from, to)) + op.estimate <= l.limit
  {
    hide Recent, SumOf, RowsOf, Total;
    var start := op.now - l.window;
    TotalMonotone(s.log, Capped(op.tenant, from, to), Charged(op.tenant, start));
    SumOfRecent(s.table.rows, op.tenant, start);
    UsedIsLogged(s, horizon, op.tenant, start);
  }

  lemma {:induction false} AdmissionKeepsWindow(l: Limits, s: State, horizon: real, op: Op, tenant: string, from: real)
    requires Consistent(s, horizon) && op.Reserving? && horizon <= op.now - l.window
    requires NonNegative(op) && Positive(s.log) && WindowSafe(l, s.log)
    ensures IntervalSafe(l, Apply(l, s, op).log, tenant, from)
  {
    hide Recent, SumOf, RowsOf, Total;
    var to := from + l.window;
    assert IntervalSafe(l, s.log, tenant, from);
    var decision := Decision(l, s.table, op.now, op.tenant, op.estimate);
    if decision.Admitted? {
      var entry := Entry(decision.id, op.tenant, op.now, op.estimate, op.estimate, Pending);
      TotalAppend(s.log, entry, Capped(tenant, from, to));
      if tenant == op.tenant && from <= op.now <= to {
        AdmissionFits(l, s, horizon, op, from, to);
      }
    }
  }

  lemma {:induction false} SettlementKeepsWindow(l: Limits, s: State, op: Op, tenant: string, from: real)
    requires !op.Reserving? && NonNegative(op) && Positive(s.log) && Accounted(s.log) && WindowSafe(l, s.log)
    requires Logged(s.log, op.id) ==> s.log[op.id - 1].phase.Pending?
    ensures IntervalSafe(l, Apply(l, s, op).log, tenant, from)
  {
    hide Total, Recent, SumOf;
    var cap := Capped(tenant, from, from + l.window);
    assert IntervalSafe(l, s.log, tenant, from);
    if Logged(s.log, op.id) {
      TotalUpdate(s.log, op.id - 1, Apply(l, s, op).log[op.id - 1], cap);
    }
  }

  lemma {:induction false} ApplyKeepsWindow(l: Limits, s: State, horizon: real, op: Op)
    requires Consistent(s, horizon) && (op.Reserving? ==> horizon <= op.now - l.window)
    requires NonNegative(op) && Positive(s.log) && WindowSafe(l, s.log)
    requires !op.Reserving? && Logged(s.log, op.id) ==> s.log[op.id - 1].phase.Pending?
    ensures Positive(Apply(l, s, op).log) && WindowSafe(l, Apply(l, s, op).log)
  {
    forall tenant: string, from: real
      ensures IntervalSafe(l, Apply(l, s, op).log, tenant, from)
    {
      if op.Reserving? {
        AdmissionKeepsWindow(l, s, horizon, op, tenant, from);
      } else {
        SettlementKeepsWindow(l, s, op, tenant, from);
      }
    }
  }

  /** An admission that no operation of the run has settled is still pending. */
  lemma {:induction false} UnsettledIsPending(l: Limits, ops: seq<Op>, id: nat)
    requires forall i :: 0 <= i < |ops| ==> !Settles(ops[i], id)
    ensures 1 <= id <= |Run(l, ops).log| ==> Run(l, ops).log[id - 1].phase.Pending?
  {
    if ops != [] {
      var init, op := ops[..|ops| - 1], ops[|ops| - 1];
      assert forall i :: 0 <= i < |init| ==> init[i] == ops[i];
      UnsettledIsPending(l, init, id);
      assert !Settles(op, id);
    }
  }

  /** In every run, whatever was evicted since: the sliding window holds over the
      whole history. */
  lemma {:induction false} WindowHoldsOverHistory(l: Limits, ops: seq<Op>)
    requires Timely(ops) && SettledOnce(ops) && forall i :: 0 <= i < |ops| ==> NonNegative(ops[i])
    ensures Positive(Run(l, ops).log) && WindowSafe(l, Run(l, ops).log)
  {
    if ops != [] {
      var init, op := ops[..|ops| - 1], ops[|ops| - 1];
      WindowHoldsOverHistory(l, init);
      var now := if op.Reserving? then op.now else LatestReading(init);
      var horizon := RunIsConsistent(l, init, now);
      if !op.Reserving? {
        UnsettledIsPending(l, init, op.id);
      }
      ApplyKeepsWindow(l, Run(l, init), horizon, op);
    }
  }

  function LatestReading(ops: seq<Op>): (now: real)
    requires Timely(ops)
    ensures NoLaterThan(ops, now)
  {
    if ops == [] then 0.0
    else if ops[|ops| - 1].Reserving? then ops[|ops| - 1].now
    else LatestReading(ops[..|ops| - 1])
  }
}
