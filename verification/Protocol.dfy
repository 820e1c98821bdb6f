/** Concurrent requests against one limiter database, one micro-step at a time:
    reserve, primary, perhaps secondary, and one settlement. */
module Protocol {
  import opened Wrappers
  import opened Ledger
  import opened History
  import opened Settlement

  datatype Request = Request(tenant: string, estimate: int)

  datatype Ticket = Ticket(id: nat, ts: real)

  /** Where a request is.  From `Locked` to `Inserted`, and in `Writing` and
      `Written`, it holds the write lock. */
  datatype Client =
    | Arriving
    | Locked
    | Timed(now: real)
    | Swept(now: real)
    | Summed(now: real, used: int)
    | Inserted(ticket: Ticket)
    | Primary(ticket: Ticket)
    | Secondary(ticket: Ticket)
    | Settling(ticket: Ticket, how: Settlement)
    | Writing(ticket: Ticket, how: Settlement)
    | Written(ticket: Ticket, how: Settlement)
    | Denied(used: int)
    | Served(ticket: Ticket, charge: int)
    | Abandoned(ticket: Ticket)

  /** A transaction that ended, in the order in which they ended. */
  datatype Txn = Txn(client: nat, op: Op)

  /** `committed` is what other connections see; `working` is the lock holder's
      own view inside its transaction. */
  datatype System = System(
    clock: real, committed: Table, working: Table, lock: Option<nat>, clients: seq<Client>, trace: seq<Txn>)

  datatype Action =
    | Tick(elapsed: real)
    | Move(client: nat)
    | Answer(client: nat, outcome: Outcome)

  function Initial(requests: seq<Request>, clock: real): System {
    System(clock, EMPTY.table, EMPTY.table, None, seq(|requests|, i => Arriving), [])
  }

  function Place(s: System, i: nat, c: Client): System
    requires i < |s.clients|
  {
    s.(clients := s.clients[i := c])
  }

  function SettledTable(t: Table, ticket: Ticket, how: Settlement): Table {
    match how
    case Charge(tokens) => Reconcile(t, ticket.id, tokens)
    case Withdraw => Release(t, ticket.id)
  }

  /** The transaction of client `i` ends with `op`, which leaves it at `c`. */
  function EndTxn(s: System, i: nat, table: Table, op: Op, c: Client): System
    requires i < |s.clients|
  {
    Place(s, i, c).(committed := table, lock := None, trace := s.trace + [Txn(i, op)])
  }

  /** One step of client `i` that needs nothing from outside; nothing if it waits. */
  function Moved(l: Limits, r: Request, s: System, i: nat): System
    requires i < |s.clients|
  {
    match s.clients[i]
    case Arriving =>
      if s.lock.Some? then s else Place(s, i, Locked).(lock := Some(i), working := s.committed)
    case Locked => Place(s, i, Timed(s.clock))
    case Timed(now) =>
      Place(s, i, Swept(now)).(working := s.working.(rows := Recent(s.working.rows, now - l.window)))
    case Swept(now) => Place(s, i, Summed(now, SumOf(s.working.rows, r.tenant, now - l.window)))
    case Summed(now, used) =>
      if used + r.estimate > l.limit then
        EndTxn(s, i, s.committed, Reserving(now, r.tenant, r.estimate), Denied(used))
      else
        var id := s.working.lastId + 1;
        Place(s, i, Inserted(Ticket(id, now))).(
          working := Table(s.working.rows + [Row(id, r.tenant, now, r.estimate)], id))
    case Inserted(ticket) =>
      EndTxn(s, i, s.working, Reserving(ticket.ts, r.tenant, r.estimate), Primary(ticket))
    case Settling(ticket, how) =>
      if s.lock.Some? then s else Place(s, i, Writing(ticket, how)).(lock := Some(i), working := s.committed)
    case Writing(ticket, how) =>
      Place(s, i, Written(ticket, how)).(working := SettledTable(s.working, ticket, how))
    case Written(ticket, how) =>
      EndTxn(s, i, s.working, SettlementOp(ticket.id, how),
             if how.Charge? then Served(ticket, how.tokens) else Abandoned(ticket))
    case _ => s
  }

  /** The provider call of client `i` comes back. */
  function Answered(r: Request, s: System, i: nat, outcome: Outcome): System
    requires i < |s.clients|
  {
    match s.clients[i]
    case Primary(ticket) =>
      if FailsOver(outcome) then Place(s, i, Secondary(ticket))
      else Place(s, i, Settling(ticket, SettlementFor(outcome, r.estimate)))
    case Secondary(ticket) => Place(s, i, Settling(ticket, SettlementFor(outcome, r.estimate)))
    case _ => s
  }

  function Next(l: Limits, requests: seq<Request>, s: System, a: Action): (s': System)
    requires |s.clients| == |requests|
    ensures |s'.clients| == |requests|
  {
    match a
    case Tick(elapsed) => if elapsed < 0.0 then s else s.(clock := s.clock + elapsed)
    case Move(i) => if i < |requests| then Moved(l, requests[i], s, i) else s
    case Answer(i, outcome) => if i < |requests| then Answered(requests[i], s, i, outcome) else s
  }

  /** Every interleaving is a sequence of actions; an action that is not enabled
      changes nothing. */
  function Exec(l: Limits, requests: seq<Request>, clock: real, actions: seq<Action>): (s: System)
    ensures |s.clients| == |requests|
  {
    if actions == [] then Initial(requests, clock)
    else Next(l, requests, Exec(l, requests, clock, actions[..|actions| - 1]), actions[|actions| - 1])
  }
}
