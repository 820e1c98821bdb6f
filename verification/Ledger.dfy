/** The `usage` table and the limiter's transactions on it, as values. */
module Ledger {
  import opened Wrappers

  datatype Row = Row(id: nat, tenant: string, ts: real, tokens: int)

  /** `lastId` is the AUTOINCREMENT counter: it never goes back. */
  datatype Table = Table(rows: seq<Row>, lastId: nat)

  datatype Limits = Limits(limit: int, window: real)

  datatype Admission = Admitted(id: nat) | Refused(used: int)

  /** The rows left by `DELETE ... WHERE ts < cutoff`. */
  function Recent(rows: seq<Row>, cutoff: real): seq<Row> {
    if rows == [] then [] else
      var last := rows[|rows| - 1];
      Recent(rows[..|rows| - 1], cutoff) + if last.ts < cutoff then [] else [last]
  }

  function InWindow(row: Row, tenant: string, cutoff: real): int {
    if row.tenant == tenant && row.ts >= cutoff then row.tokens else 0
  }

  /** `COALESCE(SUM(tokens), 0)` over a tenant's rows since `cutoff`. */
  function SumOf(rows: seq<Row>, tenant: string, cutoff: real): int {
    if rows == [] then 0
    else SumOf(rows[..|rows| - 1], tenant, cutoff) + InWindow(rows[|rows| - 1], tenant, cutoff)
  }

  function Updated(rows: seq<Row>, id: nat, tokens: int): seq<Row> {
    if rows == [] then [] else
      var last := rows[|rows| - 1];
      Updated(rows[..|rows| - 1], id, tokens) + [if last.id == id then last.(tokens := tokens) else last]
  }

  function Deleted(rows: seq<Row>, id: nat): seq<Row> {
    if rows == [] then [] else
      var last := rows[|rows| - 1];
      Deleted(rows[..|rows| - 1], id) + if last.id == id then [] else [last]
  }

  // ----- Transactions -----

  function Decision(l: Limits, t: Table, now: real, tenant: string, estimate: int): Admission {
    var cutoff := now - l.window;
    var used := SumOf(Recent(t.rows, cutoff), tenant, cutoff);
    if used + estimate > l.limit then Refused(used) else Admitted(t.lastId + 1)
  }

  /** Evict, sum, and insert or roll back. */
  function Reserve(l: Limits, t: Table, now: real, tenant: string, estimate: int): Table {
    match Decision(l, t, now, tenant, estimate)
    case Refused(_) => t
    case Admitted(id) => Table(Recent(t.rows, now - l.window) + [Row(id, tenant, now, estimate)], id)
  }

  function Reconcile(t: Table, id: nat, actual: int): Table {
    t.(rows := Updated(t.rows, id, actual))
  }

  function Release(t: Table, id: nat): Table {
    t.(rows := Deleted(t.rows, id))
  }

  // ----- Laws of the table operations -----

  lemma {:induction false} RecentConcat(a: seq<Row>, b: seq<Row>, cutoff: real)
    ensures Recent(a + b, cutoff) == Recent(a, cutoff) + Recent(b, cutoff)
  {
    if b == [] {
      assert a + b == a;
    } else {
      assert (a + b)[..|a + b| - 1] == a + b[..|b| - 1];
      RecentConcat(a, b[..|b| - 1], cutoff);
    }
  }

  lemma {:induction false} RecentTwice(rows: seq<Row>, c: real, d: real)
    requires c <= d
    ensures Recent(Recent(rows, c), d) == Recent(rows, d)
  {
    if rows != [] {
      var init, last := rows[..|rows| - 1], rows[|rows| - 1];
      RecentTwice(init, c, d);
      RecentConcat(Recent(init, c), if last.ts < c then [] else [last], d);
      assert [last][..0] == [];
    }
  }

  lemma {:induction false} SumConcat(a: seq<Row>, b: seq<Row>, tenant: string, cutoff: real)
    ensures SumOf(a + b, tenant, cutoff) == SumOf(a, tenant, cutoff) + SumOf(b, tenant, cutoff)
  {
    if b == [] {
      assert a + b == a;
    } else {
      assert (a + b)[..|a + b| - 1] == a + b[..|b| - 1];
      SumConcat(a, b[..|b| - 1], tenant, cutoff);
    }
  }

  /** Evicting rows that are too old to count does not change the sum. */
  lemma {:induction false} SumOfRecent(rows: seq<Row>, tenant: string, cutoff: real)
    ensures SumOf(Recent(rows, cutoff), tenant, cutoff) == SumOf(rows, tenant, cutoff)
  {
    if rows != [] {
      var init, last := rows[..|rows| - 1], rows[|rows| - 1];
      SumOfRecent(init, tenant, cutoff);
      SumConcat(Recent(init, cutoff), if last.ts < cutoff then [] else [last], tenant, cutoff);
      assert [last][..0] == [];
    }
  }

  lemma {:induction false} UpdatedConcat(a: seq<Row>, b: seq<Row>, id: nat, tokens: int)
    ensures Updated(a + b, id, tokens) == Updated(a, id, tokens) + Updated(b, id, tokens)
    ensures Deleted(a + b, id) == Deleted(a, id) + Deleted(b, id)
  {
    if b == [] {
      assert a + b == a;
    } else {
      assert (a + b)[..|a + b| - 1] == a + b[..|b| - 1];
      UpdatedConcat(a, b[..|b| - 1], id, tokens);
    }
  }

  /** Settling and evicting commute. */
  lemma {:induction false} RecentSettles(rows: seq<Row>, id: nat, tokens: int, cutoff: real)
    ensures Recent(Updated(rows, id, tokens), cutoff) == Updated(Recent(rows, cutoff), id, tokens)
    ensures Recent(Deleted(rows, id), cutoff) == Deleted(Recent(rows, cutoff), id)
  {
    if rows != [] {
      var init, last := rows[..|rows| - 1], rows[|rows| - 1];
      var last' := last.(tokens := tokens);
      RecentSettles(init, id, tokens, cutoff);
      RecentConcat(Updated(init, id, tokens), [if last.id == id then last' else last], cutoff);
      RecentConcat(Deleted(init, id), if last.id == id then [] else [last], cutoff);
      UpdatedConcat(Recent(init, cutoff), if last.ts < cutoff then [] else [last], id, tokens);
      assert [last][..0] == [] && [last'][..0] == [];
    }
  }

  // ----- When to retry -----

  /** `MIN(ts)` over a tenant's rows since `cutoff`. */
  function Oldest(rows: seq<Row>, tenant: string, cutoff: real): Option<real> {
    if rows == [] then None else
      var last, before := rows[|rows| - 1], Oldest(rows[..|rows| - 1], tenant, cutoff);
      if last.tenant != tenant || last.ts < cutoff then before
      else if before.Some? && before.value <= last.ts then before
      else Some(last.ts)
  }

  function RetryAfter(l: Limits, rows: seq<Row>, tenant: string, now: real): real {
    var oldest := Oldest(rows, tenant, now - l.window);
    if oldest.None? then 0.0
    else if oldest.value + l.window - now < 0.0 then 0.0
    else oldest.value + l.window - now
  }
}
