/** What a provider attempt can come to, and what the router does about it. */
module Settlement {
  import opened History

  /** `Failed` is any exception the provider layer does not classify, and
      `Cancelled` the client hanging up during the call. */
  datatype Outcome =
    | Success(prompt: nat, completion: nat)
    | RateLimited
    | TimedOut
    | Unavailable
    | Failed
    | Cancelled

  /** How a reservation ends. */
  datatype Settlement = Charge(tokens: int) | Withdraw

  /** After these outcomes of the primary the secondary is asked. */
  predicate FailsOver(outcome: Outcome) {
    outcome.RateLimited? || outcome.TimedOut?
  }

  /** The reported usage, or the estimate when nothing was reported. */
  function ChargeFor(outcome: Outcome, estimate: int): int
    requires outcome.Success?
  {
    var total := outcome.prompt + outcome.completion;
    if total != 0 then total else estimate
  }

  /** How a request ends on the outcome of its last attempt. */
  function SettlementFor(outcome: Outcome, estimate: int): Settlement {
    if outcome.Success? then Charge(ChargeFor(outcome, estimate)) else Withdraw
  }

  /** The transaction that ends reservation `id`. */
  function SettlementOp(id: nat, how: Settlement): Op {
    match how
    case Charge(tokens) => Reconciling(id, tokens)
    case Withdraw => Releasing(id)
  }

  /** The outcome that decides a request, given what each provider would answer. */
  function Deciding(first: Outcome, second: Outcome): Outcome {
    if FailsOver(first) then second else first
  }
}
