/** Deleting old rows cannot be observed; settlements touch only their own row;
    and what a refusal's retry time promises. */
module Eviction {
  import opened Ledger
  import opened History

  // ----- A table that never forgets -----

  datatype Query = Transact(op: Op) | Asking(now: real, tenant: string)

  datatype Answer = Decided(admission: Admission) | Used(tokens: int) | Settled

  /** The decision over a table whose old rows are still there. */
  function KeepingDecision(l: Limits, t: Table, now: real, tenant: string, estimate: int): Admission {
    var used := SumOf(t.rows, tenant, now - l.window);
    if used + estimate > l.limit then Refused(used) else Admitted(t.lastId + 1)
  }

  function TableAfter(l: Limits, t: Table, q: Query, evicting: bool): Table {
    match q
    case Transact(Reserving(now, tenant, estimate)) =>
      if evicting then Reserve(l, t, now, tenant, estimate)
      else if KeepingDecision(l, t, now, tenant, estimate).Refused? then t
      else Table(t.rows + [Row(t.lastId + 1, tenant, now, estimate)], t.lastId + 1)
    case Transact(Reconciling(id, actual)) => Reconcile(t, id, actual)
    case Transact(Releasing(id)) => Release(t, id)
    case Asking(_, _) => t
  }

  function AnswerTo(l: Limits, t: Table, q: Query, evicting: bool): Answer {
    match q
    case Transact(Reserving(now, tenant, estimate)) =>
      Decided(if evicting then Decision(l, t, now, tenant, estimate) else KeepingDecision(l, t, now, tenant, estimate))
    case Transact(_) => Answer.Settled
    case Asking(now, tenant) => Used(SumOf(t.rows, tenant, now - l.window))
  }

  function TableOf(l: Limits, queries: seq<Query>, evicting: bool): Table {
    if queries == [] then EMPTY.table
    else TableAfter(l, TableOf(l, queries[..|queries| - 1], evicting), queries[|queries| - 1], evicting)
  }

  function Answers(l: Limits, queries: seq<Query>, evicting: bool): seq<Answer> {
    if queries == [] then [] else
      var init := queries[..|queries| - 1];
      Answers(l, init, evicting) + [AnswerTo(l, TableOf(l, init, evicting), queries[|queries| - 1], evicting)]
  }

  predicate ReadsClock(q: Query) {
    q.Asking? || q.op.Reserving?
  }

  function Reading(q: Query): real
    requires ReadsClock(q)
  {
    if q.Asking? then q.now else q.op.now
  }

  /** The clock readings never decrease and do not pass `now`. */
  predicate ClockUpTo(queries: seq<Query>, now: real) {
    && (forall i :: 0 <= i < |queries| && ReadsClock(queries[i]) ==> Reading(queries[i]) <= now)
    && (forall i, j :: 0 <= i < j < |queries| && ReadsClock(queries[i]) && ReadsClock(queries[j]) ==>
          Reading(queries[i]) <= Reading(queries[j]))
  }

  /** Both tables show the same window, for every window still to be asked about. */
  ghost predicate SameFrom(t: Table, t': Table, horizon: real) {
    && t.lastId == t'.lastId
    && forall cutoff: real :: cutoff >= horizon ==> Recent(t.rows, cutoff) == Recent(t'.rows, cutoff)
  }

  lemma {:induction false} SameSum(t: Table, t': Table, horizon: real, tenant: string, cutoff: real)
    requires SameFrom(t, t', horizon) && cutoff >= horizon
    ensures SumOf(t.rows, tenant, cutoff) == SumOf(t'.rows, tenant, cutoff)
  {
    SumOfRecent(t.rows, tenant, cutoff);
    SumOfRecent(t'.rows, tenant, cutoff);
  }

  lemma {:induction false} SameAfterAdmission(t: Table, t': Table, horizon: real, start: real, row: Row)
    requires SameFrom(t, t', horizon) && horizon <= start
    ensures SameFrom(Table(Recent(t.rows, start) + [row], row.id), Table(t'.rows + [row], row.id), start)
  {
    var kept, all := Recent(t.rows, start) + [row], t'.rows + [row];
    forall cutoff: real | cutoff >= start ensures Recent(kept, cutoff) == Recent(all, cutoff) {
      RecentTwice(t.rows, start, cutoff);
      RecentConcat(Recent(t.rows, start), [row], cutoff);
      RecentConcat(t'.rows, [row], cutoff);
    }
  }

  lemma {:induction false} SameAfterSettlement(t: Table, t': Table, horizon: real, id: nat, tokens: int)
    requires SameFrom(t, t', horizon)
    ensures SameFrom(Reconcile(t, id, tokens), Reconcile(t', id, tokens), horizon)
    ensures SameFrom(Release(t, id), Release(t', id), horizon)
  {
    var u, u', d, d' := Reconcile(t, id, tokens), Reconcile(t', id, tokens), Release(t, id), Release(t', id);
    forall cutoff: real | cutoff >= horizon
      ensures Recent(u.rows, cutoff) == Recent(u'.rows, cutoff)
      ensures Recent(d.rows, cutoff) == Recent(d'.rows, cutoff)
    {
      RecentSettles(t.rows, id, tokens, cutoff);
      RecentSettles(t'.rows, id, tokens, cutoff);
    }
  }

  lemma {:induction false} SameStep(l: Limits, t: Table, t': Table, horizon: real, q: Query) returns (horizon': real)
    requires SameFrom(t, t', horizon) && (ReadsClock(q) ==> horizon <= Reading(q) - l.window)
    ensures AnswerTo(l, t, q, true) == AnswerTo(l, t', q, false)
    ensures SameFrom(TableAfter(l, t, q, true), TableAfter(l, t', q, false), horizon')
    ensures horizon' == horizon || (ReadsClock(q) && horizon' == Reading(q) - l.window)
  {
    horizon' := horizon;
    match q
    case Asking(now, tenant) => SameSum(t, t', horizon, tenant, now - l.window);
    case Transact(Reserving(now, tenant, estimate)) =>
      var start := now - l.window;
      SameSum(t, t', horizon, tenant, start);
      SumOfRecent(t.rows, tenant, start);
      if Decision(l, t, now, tenant, estimate).Admitted? {
        SameAfterAdmission(t, t', horizon, start, Row(t.lastId + 1, tenant, now, estimate));
        horizon' := start;
      }
    case Transact(Reconciling(id, actual)) => SameAfterSettlement(t, t', horizon, id, actual);
    case Transact(Releasing(id)) => SameAfterSettlement(t, t', horizon, id, 0);
  }

  lemma {:induction false} SameRuns(l: Limits, queries: seq<Query>, now: real) returns (horizon: real)
    requires ClockUpTo(queries, now)
    ensures Answers(l, queries, true) == Answers(l, queries, false)
    ensures SameFrom(TableOf(l, queries, true), TableOf(l, queries, false), horizon) && horizon <= now - l.window
  {
    if queries == [] {
      horizon := now - l.window;
    } else {
      var init, q := queries[..|queries| - 1], queries[|queries| - 1];
      horizon := SameRuns(l, init, if ReadsClock(q) then Reading(q) else now);
      horizon := SameStep(l, TableOf(l, init, true), TableOf(l, init, false), horizon, q);
    }
  }

  /** On every run with a clock that does not go back, the evicting table gives
      the same decisions and the same `used` as one that never deletes a row,
      however late a settlement arrives. */
  lemma {:induction false} EvictionIsUnobservable(l: Limits, queries: seq<Query>, now: real)
    requires ClockUpTo(queries, now)
    ensures Answers(l, queries, true) == Answers(l, queries, false)
  {
    var horizon := SameRuns(l, queries, now);
  }

  // ----- Settlements never cross -----

  /** Ids increase along the rows and never pass the counter. */
  predicate IdsIncrease(t: Table) {
    && (forall i, j :: 0 <= i < j < |t.rows| ==> t.rows[i].id < t.rows[j].id)
    && (forall i :: 0 <= i < |t.rows| ==> t.rows[i].id <= t.lastId)
  }

  lemma {:induction false} RowsComeFrom(rows: seq<Row>, cutoff: real, id: nat)
    ensures forall r: Row :: r in Recent(rows, cutoff) ==> r in rows
    ensures forall r: Row :: r in Deleted(rows, id) ==> r in rows
  {
    if rows != [] {
      RowsComeFrom(rows[..|rows| - 1], cutoff, id);
    }
  }

  lemma {:induction false} IdsIncreaseAppend(rows: seq<Row>, row: Row, lastId: nat)
    requires IdsIncrease(Table(rows, lastId)) && row.id <= lastId
    requires forall r: Row :: r in rows ==> r.id < row.id
    ensures IdsIncrease(Table(rows + [row], lastId))
  {
  }

  lemma {:induction false} IdsIncreaseKept(rows: seq<Row>, lastId: nat, cutoff: real, id: nat)
    requires IdsIncrease(Table(rows, lastId))
    ensures IdsIncrease(Table(Recent(rows, cutoff), lastId))
    ensures IdsIncrease(Table(Deleted(rows, id), lastId))
  {
    if rows != [] {
      var init, last := rows[..|rows| - 1], rows[|rows| - 1];
      assert forall r: Row :: r in init ==> r.id < last.id;
      IdsIncreaseKept(init, lastId, cutoff, id);
      RowsComeFrom(init, cutoff, id);
      IdsIncreaseAppend(Recent(init, cutoff), last, lastId);
      IdsIncreaseAppend(Deleted(init, id), last, lastId);
      assert Recent(init, cutoff) + [] == Recent(init, cutoff) && Deleted(init, id) + [] == Deleted(init, id);
    }
  }

  /** An UPDATE changes the tokens of the row with that id and nothing else. */
  lemma {:induction false} UpdateTouchesOneRow(rows: seq<Row>, id: nat, tokens: int)
    ensures |Updated(rows, id, tokens)| == |rows|
    ensures forall i :: 0 <= i < |rows| ==>
              Updated(rows, id, tokens)[i] == if rows[i].id == id then rows[i].(tokens := tokens) else rows[i]
  {
    if rows != [] {
      UpdateTouchesOneRow(rows[..|rows| - 1], id, tokens);
    }
  }

  /** A DELETE removes the rows with that id and nothing else. */
  lemma {:induction false} DeleteTouchesOneRow(rows: seq<Row>, id: nat, r: Row)
    ensures multiset(Deleted(rows, id))[r] == if r.id == id then 0 else multiset(rows)[r]
    ensures r in Deleted(rows, id) <==> r in rows && r.id != id
  {
    if rows != [] {
      var init, last := rows[..|rows| - 1], rows[|rows| - 1];
      DeleteTouchesOneRow(init, id, r);
      assert rows == init + [last];
    }
  }

  lemma {:induction false} ReserveKeepsIds(l: Limits, t: Table, now: real, tenant: string, estimate: int)
    requires IdsIncrease(t)
    ensures IdsIncrease(Reserve(l, t, now, tenant, estimate))
  {
    hide SumOf, Recent;
    var kept := Recent(t.rows, now - l.window);
    IdsIncreaseKept(t.rows, t.lastId, now - l.window, 0);
    IdsIncreaseAppend(kept, Row(t.lastId + 1, tenant, now, estimate), t.lastId + 1);
  }

  lemma {:induction false} UpdateKeepsIds(t: Table, id: nat, tokens: int)
    requires IdsIncrease(t)
    ensures IdsIncrease(Reconcile(t, id, tokens))
  {
    hide Updated;
    UpdateTouchesOneRow(t.rows, id, tokens);
  }

  /** In every run, in whatever order and however late settlements come, ids are
      unique and a new admission's id has never been used. */
  lemma {:induction false} IdsAreNeverReused(l: Limits, ops: seq<Op>)
    ensures IdsIncrease(Run(l, ops).table)
    ensures Numbered(Run(l, ops).log) && |Run(l, ops).log| == Run(l, ops).table.lastId
  {
    hide SumOf, Recent, Updated, Deleted;
    if ops != [] {
      var init, op := ops[..|ops| - 1], ops[|ops| - 1];
      IdsAreNeverReused(l, init);
      var t := Run(l, init).table;
      match op
      case Reserving(now, tenant, estimate) => ReserveKeepsIds(l, t, now, tenant, estimate);
      case Reconciling(id, actual) => UpdateKeepsIds(t, id, actual);
      case Releasing(id) => IdsIncreaseKept(t.rows, t.lastId, 0.0, id);
    }
  }

  lemma {:induction false} SettlementStaysHome(
    l: Limits, s: State, horizon: real, op: Op, tenant: string, cutoff: real)
    requires Consistent(s, horizon) && horizon <= cutoff && !op.Reserving?
    requires 1 <= op.id <= |s.log| ==> s.log[op.id - 1].tenant != tenant
    ensures SumOf(Apply(l, s, op).table.rows, tenant, cutoff) == SumOf(s.table.rows, tenant, cutoff)
  {
    hide SumOf, Recent, Updated, Deleted, RowsOf, Total;
    SettlementKeepsConsistent(l, s, horizon, op);
    UsedIsLogged(s, horizon, tenant, cutoff);
    UsedIsLogged(Apply(l, s, op), horizon, tenant, cutoff);
    if Logged(s.log, op.id) {
      TotalUpdate(s.log, op.id - 1, Apply(l, s, op).log[op.id - 1], Charged(tenant, cutoff));
    }
  }

  /** A late settlement leaves every other tenant's usage as it was, in every
      window that can still be asked about. */
  lemma {:induction false} SettlementsNeverCross(l: Limits, ops: seq<Op>, op: Op, now: real, tenant: string)
    requires Timely(ops) && NoLaterThan(ops, now) && !op.Reserving?
    requires 1 <= op.id <= |Run(l, ops).log| ==> Run(l, ops).log[op.id - 1].tenant != tenant
    ensures SumOf(Apply(l, Run(l, ops), op).table.rows, tenant, now - l.window)
         == SumOf(Run(l, ops).table.rows, tenant, now - l.window)
  {
    hide SumOf, Recent, RowsOf, Total;
    var horizon := RunIsConsistent(l, ops, now);
    SettlementStaysHome(l, Run(l, ops), horizon, op, tenant, now - l.window);
  }

  // ----- Retry-after -----

  predicate Tokens(rows: seq<Row>) {
    forall i :: 0 <= i < |rows| ==> rows[i].tokens >= 0
  }

  lemma {:induction false} OldestIs(rows: seq<Row>, tenant: string, cutoff: real)
    ensures var oldest := Oldest(rows, tenant, cutoff);
            && (oldest.None? <==> forall i :: 0 <= i < |rows| && rows[i].tenant == tenant ==> rows[i].ts < cutoff)
            && (oldest.Some? ==>
                  && (exists i :: 0 <= i < |rows| && rows[i].tenant == tenant && rows[i].ts == oldest.value >= cutoff)
                  && (forall i :: 0 <= i < |rows| && rows[i].tenant == tenant && rows[i].ts >= cutoff ==>
                        oldest.value <= rows[i].ts))
  {
    if rows != [] {
      var n := |rows| - 1;
      OldestIs(rows[..n], tenant, cutoff);
      assert forall i :: 0 <= i < n ==> rows[..n][i] == rows[i];
      var before := Oldest(rows[..n], tenant, cutoff);
      if before.Some? {
        var i :| 0 <= i < n && rows[..n][i].tenant == tenant && rows[..n][i].ts == before.value >= cutoff;
        assert rows[i].tenant == tenant && rows[i].ts == before.value;
      }
    }
  }

  /** The retry time is what the tenant's oldest row in the window has left in it,
      and nothing if the tenant has no row there. */
  lemma {:induction false} RetryAfterIs(l: Limits, rows: seq<Row>, tenant: string, now: real)
    ensures (forall i :: 0 <= i < |rows| && rows[i].tenant == tenant ==> rows[i].ts < now - l.window) ==>
              RetryAfter(l, rows, tenant, now) == 0.0
    ensures forall i ::
              && 0 <= i < |rows| && rows[i].tenant == tenant && rows[i].ts >= now - l.window
              && (forall j :: 0 <= j < |rows| && rows[j].tenant == tenant && rows[j].ts >= now - l.window ==>
                    rows[i].ts <= rows[j].ts)
              ==> RetryAfter(l, rows, tenant, now)
                  == if rows[i].ts + l.window > now then rows[i].ts + l.window - now else 0.0
  {
    OldestIs(rows, tenant, now - l.window);
  }

  /** Sums only grow when the window reaches further back. */
  lemma {:induction false} LongerWindowCountsMore(rows: seq<Row>, tenant: string, c: real, d: real)
    requires Tokens(rows) && c <= d
    ensures SumOf(rows, tenant, d) <= SumOf(rows, tenant, c)
    ensures (forall i :: 0 <= i < |rows| && rows[i].tenant == tenant ==> rows[i].ts < c || rows[i].ts >= d) ==>
              SumOf(rows, tenant, d) == SumOf(rows, tenant, c)
  {
    if rows != [] {
      LongerWindowCountsMore(rows[..|rows| - 1], tenant, c, d);
    }
  }

  /** Operations that give nothing back: reservations, and reconciliations upward. */
  predicate GivesNothingBack(t: Table, op: Op) {
    match op
    case Reserving(_, _, estimate) => estimate >= 0
    case Reconciling(id, actual) =>
      actual >= 0 && forall i :: 0 <= i < |t.rows| && t.rows[i].id == id ==> t.rows[i].tokens <= actual
    case Releasing(_) => false
  }

  /** `ops` runs from `s`, gives nothing back, and reads no clock past `until`. */
  predicate Filling(l: Limits, s: State, ops: seq<Op>, until: real)
    decreases |ops|
  {
    ops == [] ||
    (&& GivesNothingBack(s.table, ops[0]) && (ops[0].Reserving? ==> ops[0].now <= until)
     && Filling(l, Apply(l, s, ops[0]), ops[1..], until))
  }

  function After(l: Limits, s: State, ops: seq<Op>): State
    decreases |ops|
  {
    if ops == [] then s else After(l, Apply(l, s, ops[0]), ops[1..])
  }

  lemma {:induction false} UpwardSum(rows: seq<Row>, id: nat, tokens: int, tenant: string, cutoff: real)
    requires forall i :: 0 <= i < |rows| && rows[i].id == id ==> rows[i].tokens <= tokens
    ensures SumOf(Updated(rows, id, tokens), tenant, cutoff) >= SumOf(rows, tenant, cutoff)
  {
    if rows != [] {
      var init := rows[..|rows| - 1];
      UpwardSum(init, id, tokens, tenant, cutoff);
      var u := Updated(rows, id, tokens);
      assert u[..|u| - 1] == Updated(init, id, tokens);
    }
  }

  lemma {:induction false} EarlierEvictionKeepsSum(rows: seq<Row>, tenant: string, c: real, d: real)
    requires c <= d
    ensures SumOf(Recent(rows, c), tenant, d) == SumOf(rows, tenant, d)
  {
    RecentTwice(rows, c, d);
    SumOfRecent(Recent(rows, c), tenant, d);
    SumOfRecent(rows, tenant, d);
  }

  lemma {:induction false} AdmissionFills(rows: seq<Row>, start: real, row: Row, tenant: string, oldest: real)
    requires Tokens(rows) && start <= oldest && row.tokens >= 0
    ensures Tokens(Recent(rows, start) + [row])
    ensures SumOf(Recent(rows, start) + [row], tenant, oldest) >= SumOf(rows, tenant, oldest)
  {
    var kept := Recent(rows, start);
    EarlierEvictionKeepsSum(rows, tenant, start, oldest);
    RowsComeFrom(rows, start, 0);
    forall i | 0 <= i < |kept| ensures kept[i].tokens >= 0 {
      assert kept[i] in rows;
    }
    assert (kept + [row])[..|kept|] == kept;
  }

  /** While nothing is given back and the cutoff has not passed `oldest`, what the
      tenant used since `oldest` does not shrink. */
  lemma {:induction false} FillingKeepsSum(l: Limits, s: State, op: Op, tenant: string, oldest: real)
    requires Tokens(s.table.rows) && GivesNothingBack(s.table, op)
    requires op.Reserving? ==> op.now <= oldest + l.window
    ensures Tokens(Apply(l, s, op).table.rows)
    ensures SumOf(Apply(l, s, op).table.rows, tenant, oldest) >= SumOf(s.table.rows, tenant, oldest)
  {
    hide SumOf, Recent, Updated;
    var rows := s.table.rows;
    match op
    case Reserving(now, who, estimate) =>
      AdmissionFills(rows, now - l.window, Row(s.table.lastId + 1, who, now, estimate), tenant, oldest);
    case Reconciling(id, actual) =>
      UpwardSum(rows, id, actual, tenant, oldest);
      UpdateTouchesOneRow(rows, id, actual);
    case Releasing(_) =>
  }

  lemma {:induction false} FillingKeepsUsed(
    l: Limits, s: State, ops: seq<Op>, tenant: string, oldest: real)
    requires Tokens(s.table.rows) && Filling(l, s, ops, oldest + l.window)
    ensures var s' := After(l, s, ops);
            Tokens(s'.table.rows) && SumOf(s'.table.rows, tenant, oldest) >= SumOf(s.table.rows, tenant, oldest)
    decreases |ops|
  {
    if ops != [] {
      FillingKeepsSum(l, s, ops[0], tenant, oldest);
      FillingKeepsUsed(l, Apply(l, s, ops[0]), ops[1..], tenant, oldest);
    }
  }

  /** A refused request stays refused up to and including the moment that
      `retry_after` names, if nothing is given back meanwhile. */
  lemma {:induction false} RetryAfterIsLowerBound(
    l: Limits, s: State, now: real, tenant: string, estimate: int, ops: seq<Op>, later: real)
    requires Tokens(s.table.rows) && Decision(l, s.table, now, tenant, estimate).Refused?
    requires Oldest(s.table.rows, tenant, now - l.window).Some?
    requires now <= later <= now + RetryAfter(l, s.table.rows, tenant, now)
    requires Filling(l, s, ops, later)
    ensures Decision(l, After(l, s, ops).table, later, tenant, estimate).Refused?
  {
    hide SumOf, Recent, Filling;
    var rows, start := s.table.rows, now - l.window;
    var oldest := Oldest(rows, tenant, start).value;
    OldestIs(rows, tenant, start);
    assert later <= oldest + l.window;
    FillingWithin(l, s, ops, later, oldest + l.window);
    FillingKeepsUsed(l, s, ops, tenant, oldest);
    LongerWindowCountsMore(rows, tenant, start, oldest);
    SumOfRecent(rows, tenant, start);
    var rows' := After(l, s, ops).table.rows;
    LongerWindowCountsMore(rows', tenant, later - l.window, oldest);
    SumOfRecent(rows', tenant, later - l.window);
  }

  lemma {:induction false} FillingWithin(l: Limits, s: State, ops: seq<Op>, until: real, until': real)
    requires Filling(l, s, ops, until) && until <= until'
    ensures Filling(l, s, ops, until')
    decreases |ops|
  {
    if ops != [] {
      FillingWithin(l, Apply(l, s, ops[0]), ops[1..], until, until');
    }
  }

  /** `retry_after` is at most the window, and by the whole second that the HTTP
      header rounds it up to, the oldest row no longer counts. */
  lemma {:induction false} RetryAfterFreesOldest(l: Limits, rows: seq<Row>, tenant: string, now: real)
    requires l.window >= 0.0 && forall i :: 0 <= i < |rows| ==> rows[i].ts <= now
    ensures 0.0 <= RetryAfter(l, rows, tenant, now) <= l.window
    ensures var oldest := Oldest(rows, tenant, now - l.window);
            var header := RetryAfter(l, rows, tenant, now).Floor + 1;
            oldest.Some? ==> oldest.value < now + header as real - l.window
  {
    OldestIs(rows, tenant, now - l.window);
  }
}
