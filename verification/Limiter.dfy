/** `TokenRateLimiter`: the `usage` table changed in place by transactions that
    begin by taking the write lock. */
module Limiter {
  import opened Ledger
  import opened History
  import opened Eviction

  datatype Reservation = Reservation(rowId: nat, tenant: string, reserved: int)

  datatype ReserveResult =
    | Reserved(reservation: Reservation)
    | RateLimitExceeded(used: int, requested: int, limit: int, retryAfter: real)

  class TokenRateLimiter {
    const limits: Limits
    var rows: seq<Row>
    var lastId: nat

    /** Every admission so far, with its current charge. */
    ghost var log: seq<Entry>

    /** Windows that begin here or later have lost no row to eviction. */
    ghost var horizon: real

    function CurrentTable(): Table
      reads this
    {
      Table(rows, lastId)
    }

    ghost function Now(): State
      reads this
    {
      State(CurrentTable(), log)
    }

    /** Ids are unique, and the rows are the log seen through the window. */
    ghost predicate Valid()
      reads this
    {
      IdsIncrease(CurrentTable()) && Consistent(Now(), horizon)
    }

    constructor (limit: int, window: real, ghost now: real)
      ensures Valid() && limits == Limits(limit, window)
      ensures Now() == EMPTY && horizon == now - window
    {
      limits := Limits(limit, window);
      rows, lastId, log := [], 0, [];
      horizon := now - window;
    }

    /** One transaction: evict, sum, then insert and commit, or roll back. */
    method ReserveSync(tenant: string, estimate: int, now: real) returns (result: ReserveResult)
      requires Valid()
      modifies this
      ensures Valid()
      ensures Now() == Apply(limits, old(Now()), Reserving(now, tenant, estimate))
      ensures horizon == HorizonAfter(limits, old(Now()), old(horizon), Reserving(now, tenant, estimate))
      ensures match Decision(limits, old(CurrentTable()), now, tenant, estimate)
              case Refused(used) =>
                && Now() == old(Now())
                && result == RateLimitExceeded(used, estimate, limits.limit,
                                               RetryAfter(limits, old(rows), tenant, now))
              case Admitted(id) => result == Reserved(Reservation(id, tenant, estimate))
    {
      hide Consistent, RowsOf;
      ghost var op := Reserving(now, tenant, estimate);
      ApplyKeepsConsistent(limits, Now(), horizon, op);
      ReserveKeepsIds(limits, CurrentTable(), now, tenant, estimate);
      horizon := HorizonAfter(limits, Now(), horizon, op);
      var begun := rows;
      var cutoff := now - limits.window;
      rows := Recent(rows, cutoff);
      var used := SumOf(rows, tenant, cutoff);
      if used + estimate > limits.limit {
        rows := begun;
        result := RateLimitExceeded(used, estimate, limits.limit, RetryAfter(limits, rows, tenant, now));
        return;
      }
      lastId := lastId + 1;
      rows := rows + [Row(lastId, tenant, now, estimate)];
      log := log + [Entry(lastId, tenant, now, estimate, estimate, Pending)];
      result := Reserved(Reservation(lastId, tenant, estimate));
    }

    method ReconcileSync(reservation: Reservation, actual: int)
      requires Valid()
      modifies this
      ensures Valid() && horizon == old(horizon)
      ensures Now() == Apply(limits, old(Now()), Reconciling(reservation.rowId, actual))
    {
      hide Consistent, Updated;
      ApplyKeepsConsistent(limits, Now(), horizon, Reconciling(reservation.rowId, actual));
      UpdateKeepsIds(CurrentTable(), reservation.rowId, actual);
      log := Apply(limits, Now(), Reconciling(reservation.rowId, actual)).log;
      rows := Updated(rows, reservation.rowId, actual);
    }

    method ReleaseSync(reservation: Reservation)
      requires Valid()
      modifies this
      ensures Valid() && horizon == old(horizon)
      ensures Now() == Apply(limits, old(Now()), Releasing(reservation.rowId))
    {
      hide Consistent, Deleted;
      ApplyKeepsConsistent(limits, Now(), horizon, Releasing(reservation.rowId));
      IdsIncreaseKept(rows, lastId, 0.0, reservation.rowId);
      log := Apply(limits, Now(), Releasing(reservation.rowId)).log;
      rows := Deleted(rows, reservation.rowId);
    }

    /** The sum over the rows that are left is the sum over every admission that
        was ever made in the window. */
    method UsedSync(tenant: string, now: real) returns (used: int)
      requires Valid()
      ensures used == SumOf(rows, tenant, now - limits.window)
      ensures horizon <= now - limits.window ==> used == Total(log, Charged(tenant, now - limits.window))
    {
      used := SumOf(rows, tenant, now - limits.window);
      if horizon <= now - limits.window {
        UsedIsLogged(Now(), horizon, tenant, now - limits.window);
      }
    }
  }
}
