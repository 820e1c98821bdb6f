/** `CompletionRouter`: what one request does to the limiter and to the providers. */
module Router {
  import opened Ledger
  import opened History
  import opened Settlement
  import opened Limiter

  // ----- The estimate -----

  datatype Part = Dict(text: string) | NotDict

  datatype Message = Text(content: string) | Parts(parts: seq<Part>) | NoContent

  function PartCharacters(parts: seq<Part>): nat {
    if parts == [] then 0
    else PartCharacters(parts[..|parts| - 1])
         + if parts[|parts| - 1].Dict? then |parts[|parts| - 1].text| else 0
  }

  function MessageCharacters(message: Message): nat {
    match message
    case Text(content) => |content|
    case Parts(parts) => PartCharacters(parts)
    case NoContent => 0
  }

  function Characters(messages: seq<Message>): nat {
    if messages == [] then 0
    else Characters(messages[..|messages| - 1]) + MessageCharacters(messages[|messages| - 1])
  }

  function TotalLength(texts: seq<string>): nat {
    if texts == [] then 0 else TotalLength(texts[..|texts| - 1]) + |texts[|texts| - 1]|
  }

  datatype Config = Config(charsPerToken: real, minimum: int, primary: string, secondary: string)

  function Estimate(config: Config, characters: nat, maxTokens: int): int
    requires config.charsPerToken > 0.0
  {
    var estimate := (characters as real / config.charsPerToken).Floor + maxTokens;
    if estimate < config.minimum then config.minimum else estimate
  }

  lemma {:induction false} TotalLengthAppend(texts: seq<string>, text: string)
    ensures TotalLength(texts + [text]) == TotalLength(texts) + |text|
  {
    assert (texts + [text])[..|texts|] == texts;
  }

  lemma {:induction false} CharactersAdd(a: seq<Message>, b: seq<Message>)
    ensures Characters(a + b) == Characters(a) + Characters(b)
  {
    if b == [] {
      assert a + b == a;
    } else {
      assert (a + b)[..|a + b| - 1] == a + b[..|b| - 1];
      CharactersAdd(a, b[..|b| - 1]);
    }
  }

  /** More messages or a larger `max_tokens` never reserve less, and every
      reservation is at least the minimum. */
  lemma {:induction false} EstimateGrows(
    config: Config, a: seq<Message>, b: seq<Message>, maxTokens: int, more: nat)
    requires config.charsPerToken > 0.0
    ensures config.minimum <= Estimate(config, Characters(a), maxTokens)
         <= Estimate(config, Characters(a + b), maxTokens + more)
  {
    CharactersAdd(a, b);
    QuotientGrows(Characters(a) as real, Characters(a + b) as real, config.charsPerToken);
  }

  lemma QuotientGrows(x: real, y: real, c: real)
    requires x <= y && c > 0.0
    ensures x / c <= y / c
  {
    var a, b := x / c, y / c;
    assert a * c == x && b * c == y;
    assert (b - a) * c == y - x;
  }

  /** The estimate is the whole number of times that the characters hold a token's
      worth, and the tokens asked for, but no less than the minimum. */
  lemma {:induction false} EstimateIs(config: Config, characters: nat, maxTokens: int, q: int)
    requires config.charsPerToken > 0.0
    requires q as real * config.charsPerToken <= characters as real < (q + 1) as real * config.charsPerToken
    ensures Estimate(config, characters, maxTokens)
         == if q + maxTokens < config.minimum then config.minimum else q + maxTokens
  {
    var c := config.charsPerToken;
    var share := characters as real / c;
    assert share * c == characters as real;
    ProductOrder(share, q as real, c);
    ProductOrder(share, (q + 1) as real, c);
    assert q as real <= share < q as real + 1.0;
    assert share.Floor == q;
  }

  lemma ProductOrder(x: real, y: real, c: real)
    requires c > 0.0
    ensures x * c < y * c <==> x < y
  {
    assert y * c - x * c == (y - x) * c;
  }

  /** Whose characters count: a text in full, the dictionary parts of a list, and
      nothing of anything else. */
  lemma {:induction false} CharactersOf(messages: seq<Message>, text: string, parts: seq<Part>, part: Part)
    ensures Characters(messages + [Text(text)]) == Characters(messages) + |text|
    ensures Characters(messages + [NoContent]) == Characters(messages)
    ensures Characters(messages + [Parts([])]) == Characters(messages)
    ensures Characters(messages + [Parts(parts + [part])])
         == Characters(messages + [Parts(parts)]) + if part.Dict? then |part.text| else 0
  {
    assert forall m: Message :: (messages + [m])[..|messages|] == messages;
    assert (parts + [part])[..|parts|] == parts;
  }

  method EstimateTokens(config: Config, messages: seq<Message>, maxTokens: int) returns (estimate: int)
    requires config.charsPerToken > 0.0
    ensures estimate == Estimate(config, Characters(messages), maxTokens)
    ensures estimate >= config.minimum
  {
    var texts: seq<string> := [];
    for i := 0 to |messages|
      invariant TotalLength(texts) == Characters(messages[..i])
    {
      assert messages[..i + 1][..i] == messages[..i];
      match messages[i]
      case Text(content) =>
        TotalLengthAppend(texts, content);
        texts := texts + [content];
      case Parts(parts) =>
        ghost var before := TotalLength(texts);
        for j := 0 to |parts|
          invariant TotalLength(texts) == before + PartCharacters(parts[..j])
        {
          assert parts[..j + 1][..j] == parts[..j];
          if parts[j].Dict? {
            TotalLengthAppend(texts, parts[j].text);
            texts := texts + [parts[j].text];
          }
        }
        assert parts[..|parts|] == parts;
      case NoContent =>
    }
    assert messages[..|messages|] == messages;
    var characters := 0;
    for k := 0 to |texts|
      invariant characters == TotalLength(texts[..k])
    {
      assert texts[..k + 1][..k] == texts[..k];
      characters := characters + |texts[k]|;
    }
    assert texts[..|texts|] == texts;
    estimate := (characters as real / config.charsPerToken).Floor;
    estimate := estimate + maxTokens;
    estimate := if estimate < config.minimum then config.minimum else estimate;
  }

  // ----- Routing -----

  datatype Reply =
    | TooManyRequests(retryAfter: real)
    | Completed(provider: string, charged: int)
    | UpstreamTimeout
    | UpstreamUnavailable
    | Sanitized

  function ErrorFor(outcome: Outcome): Reply {
    match outcome
    case TimedOut => UpstreamTimeout
    case RateLimited => UpstreamUnavailable
    case Unavailable => UpstreamUnavailable
    case _ => Sanitized
  }

  function Attempts(config: Config, first: Outcome): seq<string> {
    [config.primary] + if FailsOver(first) then [config.secondary] else []
  }

  /** What the tenant is told for the outcome that decided its request, and how its
      reservation `id` ends. */
  predicate EndsAs(
    l: Limits, reserved: State, settled: State, id: nat, estimate: int, provider: string, outcome: Outcome,
    reply: Reply)
  {
    match outcome
    case Success(prompt, completion) =>
      var charge := if prompt + completion > 0 then prompt + completion else estimate;
      reply == Completed(provider, charge) && settled == Apply(l, reserved, Reconciling(id, charge))
    case TimedOut => reply == UpstreamTimeout && settled == Apply(l, reserved, Releasing(id))
    case RateLimited => reply == UpstreamUnavailable && settled == Apply(l, reserved, Releasing(id))
    case Unavailable => reply == UpstreamUnavailable && settled == Apply(l, reserved, Releasing(id))
    case Failed => reply == Sanitized && settled == Apply(l, reserved, Releasing(id))
    case Cancelled => reply == Sanitized && settled == Apply(l, reserved, Releasing(id))
  }

  /** The provider layer: what the `n`-th call comes to is arbitrary. */
  class Providers {
    const answers: (string, nat) -> Outcome
    var calls: seq<string>

    constructor (answers: (string, nat) -> Outcome)
      ensures this.answers == answers && calls == []
    {
      this.answers, calls := answers, [];
    }

    method CallProvider(name: string) returns (outcome: Outcome)
      modifies this
      ensures calls == old(calls) + [name] && outcome == answers(name, |old(calls)|)
    {
      outcome := answers(name, |calls|);
      calls := calls + [name];
    }

    /** What a request that starts now would hear from the primary. */
    function First(config: Config): Outcome
      reads this
    {
      answers(config.primary, |calls|)
    }

    /** ... and then from the secondary. */
    function Second(config: Config): Outcome
      reads this
    {
      answers(config.secondary, |calls| + 1)
    }
  }

  class CompletionRouter {
    const config: Config
    const limiter: TokenRateLimiter
    const providers: Providers

    constructor (config: Config, limiter: TokenRateLimiter, providers: Providers)
      ensures this.config == config && this.limiter == limiter && this.providers == providers
    {
      this.config, this.limiter, this.providers := config, limiter, providers;
    }

    /** The primary is called once, and the secondary once after a 429 or a timeout
        and not otherwise; the call log records these calls. */
    method CallWithFailover() returns (outcome: Outcome, attempts: seq<string>)
      modifies providers
      ensures outcome == Deciding(old(providers.First(config)), old(providers.Second(config)))
      ensures attempts == Attempts(config, old(providers.First(config)))
      ensures providers.calls == old(providers.calls) + attempts
      ensures var first := old(providers.answers(config.primary, |providers.calls|));
              if first.RateLimited? || first.TimedOut? then
                && providers.calls == old(providers.calls) + [config.primary, config.secondary]
                && outcome == providers.answers(config.secondary, |old(providers.calls)| + 1)
              else
                && providers.calls == old(providers.calls) + [config.primary]
                && outcome == first
    {
      attempts := [config.primary];
      outcome := providers.CallProvider(config.primary);
      if !FailsOver(outcome) {
        return;
      }
      attempts := attempts + [config.secondary];
      outcome := providers.CallProvider(config.secondary);
    }

    /** The usage of every tenant after a request: its own grows by what it was
        charged if it was served, and nothing else changes. */
    twostate predicate UsageGrows(tenant: string, since: real, reply: Reply)
      reads limiter
    {
      forall who: string ::
        SumOf(limiter.rows, who, since)
        == old(SumOf(limiter.rows, who, since))
           + if reply.Completed? && who == tenant then reply.charged else 0
    }

    /** One request from admission to settlement.  `now` is what the clock reads
        inside the reservation. */
    method RouteCompletion(tenant: string, messages: seq<Message>, maxTokens: int, now: real)
      returns (reply: Reply, attempts: seq<string>)
      requires config.charsPerToken > 0.0 && limiter.Valid()
      modifies limiter, providers
      ensures limiter.Valid()
      ensures providers.calls == old(providers.calls) + attempts
      ensures
        var estimate := Estimate(config, Characters(messages), maxTokens);
        var reserved := Apply(limiter.limits, old(limiter.Now()), Reserving(now, tenant, estimate));
        match Decision(limiter.limits, old(limiter.CurrentTable()), now, tenant, estimate)
        case Refused(_) =>
          && limiter.Now() == old(limiter.Now()) && attempts == []
          && reply == TooManyRequests(RetryAfter(limiter.limits, old(limiter.rows), tenant, now))
        case Admitted(id) =>
          var first := old(providers.First(config));
          var outcome := Deciding(first, old(providers.Second(config)));
          var how := SettlementFor(outcome, estimate);
          && limiter.Now() == Apply(limiter.limits, reserved, SettlementOp(id, how))
          && attempts == Attempts(config, first)
          && reply == if how.Charge? then Completed(attempts[|attempts| - 1], how.tokens) else ErrorFor(outcome)
      ensures
        var estimate := Estimate(config, Characters(messages), maxTokens);
        var reserved := Apply(limiter.limits, old(limiter.Now()), Reserving(now, tenant, estimate));
        var first := old(providers.answers(config.primary, |providers.calls|));
        var second := providers.answers(config.secondary, |old(providers.calls)| + 1);
        match Decision(limiter.limits, old(limiter.CurrentTable()), now, tenant, estimate)
        case Refused(_) => providers.calls == old(providers.calls)
        case Admitted(id) =>
          if first.RateLimited? || first.TimedOut? then
            && providers.calls == old(providers.calls) + [config.primary, config.secondary]
            && EndsAs(limiter.limits, reserved, limiter.Now(), id, estimate, config.secondary, second, reply)
          else
            && providers.calls == old(providers.calls) + [config.primary]
            && EndsAs(limiter.limits, reserved, limiter.Now(), id, estimate, config.primary, first, reply)
      ensures old(limiter.horizon) <= now - limiter.limits.window <= now ==>
                UsageGrows(tenant, now - limiter.limits.window, reply)
    {
      hide Reserve, Decision, SumOf, Recent, Updated, Deleted, Characters, Oldest, Consistent, Apply;
      var estimate := EstimateTokens(config, messages, maxTokens);
      ghost var before, horizon := limiter.Now(), limiter.horizon;
      var result := limiter.ReserveSync(tenant, estimate, now);
      if result.RateLimitExceeded? {
        return TooManyRequests(result.retryAfter), [];
      }
      var reservation := result.reservation;
      var outcome;
      outcome, attempts := CallWithFailover();
      ghost var how := SettlementFor(outcome, estimate);
      ghost var since := now - limiter.limits.window;
      if horizon <= since <= now {
        ghost var settled := Apply(limiter.limits, limiter.Now(), SettlementOp(reservation.rowId, how));
        forall who: string
          ensures SumOf(settled.table.rows, who, since)
               == SumOf(before.table.rows, who, since) + if how.Charge? && who == tenant then how.tokens else 0
        {
          RequestLeavesItsCost(limiter.limits, before, horizon, now, tenant, estimate, how, who);
        }
      }
      if !outcome.Success? {
        limiter.ReleaseSync(reservation);
        return ErrorFor(outcome), attempts;
      }
      var total := outcome.prompt + outcome.completion;
      var charged := if total != 0 then total else estimate;
      limiter.ReconcileSync(reservation, charged);
      reply := Completed(attempts[|attempts| - 1], charged);
    }
  }

  /** A request leaves exactly its cost behind: its charge if it was served, and
      nothing if it failed on every provider it tried. */
  lemma {:induction false} RequestLeavesItsCost(
    l: Limits, s: State, horizon: real, now: real, tenant: string, estimate: int, how: Settlement, who: string)
    requires Consistent(s, horizon) && horizon <= now - l.window && l.window >= 0.0
    requires Decision(l, s.table, now, tenant, estimate).Admitted?
    ensures var id := Decision(l, s.table, now, tenant, estimate).id;
            var s' := Apply(l, Apply(l, s, Reserving(now, tenant, estimate)), SettlementOp(id, how));
            SumOf(s'.table.rows, who, now - l.window)
            == SumOf(s.table.rows, who, now - l.window) + if how.Charge? && who == tenant then how.tokens else 0
  {
    hide SumOf, Recent, Updated, Deleted, Total, RowsOf;
    var op := Reserving(now, tenant, estimate);
    var id := Decision(l, s.table, now, tenant, estimate).id;
    var reserved, cutoff := Apply(l, s, op), now - l.window;
    var settled := Apply(l, reserved, SettlementOp(id, how));
    ApplyKeepsConsistent(l, s, horizon, op);
    SettlementKeepsConsistent(l, reserved, cutoff, SettlementOp(id, how));
    UsedIsLogged(s, horizon, who, cutoff);
    UsedIsLogged(settled, cutoff, who, cutoff);
    var w := Charged(who, cutoff);
    TotalAppend(s.log, reserved.log[id - 1], w);
    TotalUpdate(reserved.log, id - 1, settled.log[id - 1], w);
  }
}
