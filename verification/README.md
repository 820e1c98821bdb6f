# Streaming redactor and token limiter: a Dafny model

This project models the two stateful cores of the gateway and proves what they promise.

**The streaming redactor and its SSE pipeline.** A chat completion arrives in pieces. `StreamingRedactor`
holds back a tail of the text, releases a prefix as soon as later text cannot change how it is redacted,
and redacts emails, card numbers and SSNs on the way. The model contains

- the fragment of Python's `re` that the patterns use, with the engine's own semantics (ordered choice,
  greedy repetition with back-off, lookbehind, lookahead), and the three patterns transcribed into it
  (`Regex.dfy`, `Patterns.dfy`, `Matching.dfy`, `Longest.dfy`);
- the patterns once more, read off the characters of a text without classes or an engine, and the one way of
  dividing a text into redacted and kept segments that they leave (`Shapes.dfy`, `Reading.dfy`);
- one leftmost pass over a whole text as the reference, and the class with its buffer, loops and
  statistics as the streaming form (`Substitution.dfy`, `Redactor.dfy`, `Luhn.dfy`);
- runs over any division of a text into deltas, and how large the hold must be (`Chunking.dfy`,
  `Hold.dfy`, `Threshold.dfy`), and the class driven through a whole run (`Streaming.dfy`);
- line splitting, frame handling and the whole guardrail (`Lines.dfy`, `Sse.dfy`, `EndToEnd.dfy`).

Texts are sequences of Unicode characters. `\d`, `\w`, `isdigit`, `isalnum` and `strip` come from a table
(`CharTables.Unicode`) about which only the nesting of the classes and the ASCII part are fixed, so every
theorem holds for every Unicode version.

**The sliding-window limiter and the router's settlement protocol.** The `usage` table is changed by
reserve, reconcile and release transactions under a write lock; the router drives each request through a
reservation, one or two provider attempts and one settlement. The model contains

- the table and its transactions as values, and the class that changes the table in place
  (`Ledger.dfy`, `Limiter.dfy`);
- serial runs with a log of every admission (`History.dfy`, `Eviction.dfy`);
- a step system of concurrent requests with program counters, one lock holder and its uncommitted view of
  the table (`Protocol.dfy`), the proof that every interleaving is a serial run (`Interleaving.dfy`,
  `Serialisable.dfy`), and what follows (`ProtocolTheorems.dfy`, `ProviderAnswers.dfy`);
- the router itself (`Settlement.dfy`, `Router.dfy`).

Time is real-valued and every transaction reads the clock after it has taken the lock, as
`task4_router/limiter.py:172-174` does.

## Where the code and its documentation differ

The model follows the code.

- `task3_stream_guardrail/redactor.py:15-16` and `:113` call released text provably safe. It is, for every
  division of a text, whenever the text's runs of match-eligible characters are within the hold
  (`Chunking.ChunkIndependence`), and from a hold of 6 on for no larger bound on runs
  (`Threshold.HoldCoversRunsExactly` has the exact bound for every hold). The bound is over all texts: a single
  text with a longer run may still come through whole (`Hold.LongRunCanBeHarmless`). On a longer run the cap
  at line 185 cuts inside the run and line 165 forgets the character that a lookbehind would have seen. `redact` (lines 234-237) goes through the streaming form, so it has the same condition.
- `task3_stream_guardrail/redactor.py:58-59` says that no hold shorter than 409 is safe. The lookbehind
  apart, a decision that has been released is never contradicted by later text exactly when the hold is at
  least 386 (`Hold.HoldKeepsDecisionsExactly`): a match that already reaches the end of the buffer is held
  by the straddle rule, so only the first letter of the top-level domain can still be open.
- `task3_stream_guardrail/sse.py:142` compares the cap with the pending line *plus the whole new chunk*, so
  a large chunk of short lines also stops the stream (`Lines.CapStopsEmptyLines` has a chunk of nothing but
  line feeds). A line over the cap does stop it, however it is divided (`Lines.LongLineStops`).
- `task3_stream_guardrail/sse.py:108-109` and `tests/test_task3_guardrail.py:291-293` want everything held
  back to go out before the terminal frame. The code asks whether a frame is terminal only when it carries no
  text (line 107). A terminal frame with text goes out with its released part while the rest is held
  (`EndToEnd.TerminalTextIsHeld`), and with an empty text it never goes out (`EndToEnd.EmptyTerminalIsDropped`).
  When the texts fit the hold, the tail is empty after a frame if and only if the text since the last flush
  does not end in a character that can continue a match (`EndToEnd.NothingHeldExactly`), and a frame with
  text goes out if and only if it adds text and some character of tail and text cannot continue a match
  (`EndToEnd.TextFrameGoesOut`).
- `task3_stream_guardrail/sse.py:84-87` passes every line through that does not begin with `data: `, comments
  and other fields. An event stream also reads `data:` without the space as data (section 9.2.6 of the WHATWG
  HTML Standard), and such a line goes out uninspected (`Sse.UnspacedDataIsNotInspected`). "The client's
  message" below is the content of the frames that were decoded, so the theorems are about what a client
  reads if no forwarded line begins with `data:`.
- Content that arrives after `[DONE]` and is still held back when the upstream ends is never sent
  (`task3_stream_guardrail/sse.py:164`): `EndToEnd.TextAfterDoneIsLost` is such a stream. When the texts fit
  the hold, the client gets everything if and only if the stream holds no `[DONE]`, or its text since the last
  flush is empty or ends in a character that cannot continue a match (`EndToEnd.ClientReceivesRedaction`).

## Model

| member | source | states |
|---|---|---|
| Regex.EngineDecides | task3_stream_guardrail/redactor.py:32-52 | the backtracking engine reports a match exactly when the pattern's language has one there, and what it reports is one |
| Regex.EngineStopsAtWall | task3_stream_guardrail/redactor.py:170-180 | a character that no class of a pattern takes stops every match begun before it, whatever follows |
| Regex.EngineShift | task3_stream_guardrail/redactor.py:147-165 | forgetting earlier text only moves a match, unless a lookbehind loses a blocking character |
| Regex.EngineHorizon | task3_stream_guardrail/redactor.py:54-59 | text beyond the longest match and one lookahead character never matters |
| Patterns.EmailIsEngine | task3_stream_guardrail/redactor.py:32-39 | the engine on the email pattern ends where the direct reading says: whole runs between marks, as many labels as still leave a legal top-level domain |
| Patterns.CardIsEngine | task3_stream_guardrail/redactor.py:41-44 | the engine on the card pattern takes the most digits, 13 to 19, that no digit follows |
| Patterns.SsnIsEngine | task3_stream_guardrail/redactor.py:46-48 | the engine on the SSN pattern accepts exactly the 3-2-4 shape between non-digits |
| Longest.MatchIsLongest | task3_stream_guardrail/redactor.py:32-52 | each alternative matches exactly when its language has a string at the position, and then it matches the longest |
| Longest.MatchSeesOneEachSide | task3_stream_guardrail/redactor.py:30-48 | whether a stretch is a match depends on it and one character either side only |
| Shapes.PatternIsShape | task3_stream_guardrail/redactor.py:32-48 | for each alternative, a stretch is in its language if and only if its characters and its neighbours are those of an email, a card number or an SSN: literal character sets, group lengths, separators only between two decimals |
| Shapes.EndIsLongestShape | task3_stream_guardrail/redactor.py:32-48 | each alternative ends where the longest stretch of its shape ends, and fails exactly where there is none |
| Matching.PatternBounds | task3_stream_guardrail/redactor.py:54-70 | no match is longer than 409, 34 or 11 characters (nor shorter than 6, 13 or 11) |
| Hold.LengthBoundsAttained | task3_stream_guardrail/redactor.py:54-70 | each of the three bounds is attained by a text |
| Matching.MatchStopsAt | task3_stream_guardrail/redactor.py:191-205 | a character for which `_can_continue_a_match` is false ends every match begun before it, for every continuation of the buffer, including a space that is not between digits |
| Matching.MatchShift | task3_stream_guardrail/redactor.py:164-165 | after dropping a prefix that ends in such a character, matches are the same matches |
| Luhn.ComputeLuhn | task3_stream_guardrail/redactor.py:76-86 | the loop from the right computes the checksum |
| Luhn.LuhnIsChecksum | task3_stream_guardrail/redactor.py:76-86 | the total is the checksum of the standard, with the digit sum of every second digit's double |
| Luhn.OneWrongDigitIsDetected | task3_stream_guardrail/redactor.py:76-86 | changing one digit of an accepted string makes it rejected, at any length |
| Luhn.SwapIsDetected | task3_stream_guardrail/redactor.py:76-86 | swapping two different neighbours is detected exactly unless they are 0 and 9 |
| Luhn.CheckDigitIsUnique | task3_stream_guardrail/redactor.py:76-86 | every prefix has exactly one accepting check digit |
| Substitution.DigitsAreRead | task3_stream_guardrail/redactor.py:231 | the digits that the Luhn gate tests are the decimals of the match, each at its rank |
| Reading.StepIsVerdict | task3_stream_guardrail/redactor.py:145-168 | at a position of the scan the characters leave one outcome: the longest email is redacted, else the longest card number unless the gate is on and its digits fail, else the SSN, else one character is kept |
| Reading.ScanIsReading | task3_stream_guardrail/redactor.py:207-219 | every text has exactly one division into such outcomes, and the scan is it |
| Reading.KeptIsNoMatch | task3_stream_guardrail/redactor.py:207-231 | what is left standing is a character at which no shape begins, or a card number that the gate turned down |
| Reading.SentIsVerdict | task3_stream_guardrail/redactor.py:139-168 | in every run, for any hold, each released segment, redacted or kept, is what the characters of the buffer then scanned call for |
| Substitution.HiddenWasMatched | task3_stream_guardrail/redactor.py:147-162 | whatever a scan redacts is a real pattern match of the scanned buffer |
| Substitution.ScanCovers | task3_stream_guardrail/redactor.py:145-166 | the kept and redacted segments of a scan are the scanned text, in order, with nothing lost or repeated |
| Substitution.SubstituteSplits | task3_stream_guardrail/redactor.py:139-168 | at a safe cut, redacting the buffer with any continuation is redacting the released prefix and, independently, the retained tail with the continuation |
| Redactor.StreamingRedactor.constructor | task3_stream_guardrail/redactor.py:104-110 | a fresh redactor holds nothing and defaults to the derived hold |
| Redactor.StreamingRedactor.Feed | task3_stream_guardrail/redactor.py:112-118 | absorbs the delta, releases exactly the safe prefix, and keeps the account: released segments and buffer are the absorbed text, `redactions` and `emitted_chars` are true, the peak is recorded |
| Redactor.StreamingRedactor.Flush | task3_stream_guardrail/redactor.py:120-133 | empties the buffer and returns its redaction |
| Redactor.StreamingRedactor.EmitSafePrefix | task3_stream_guardrail/redactor.py:139-168 | the new buffer and output are those of the cut, the account is kept |
| Redactor.StreamingRedactor.RedactUpTo | task3_stream_guardrail/redactor.py:145-166 | the cursor loop renders the scan up to the limit, or up to a match that straddles it |
| Redactor.StreamingRedactor.ComputeUnsafeStart | task3_stream_guardrail/redactor.py:170-189 | the backward loop finds the start of the live suffix, not past the cap |
| Redactor.StreamingRedactor.FindNext | task3_stream_guardrail/redactor.py:147 | the next match of `finditer` is the leftmost one |
| Redactor.StreamingRedactor.SubstituteAll | task3_stream_guardrail/redactor.py:207-219 | the reference substitution of a complete text, which renders its one reading, with its redactions counted |
| Redactor.StreamingRedactor.ComputeIsReal | task3_stream_guardrail/redactor.py:221-231 | only a card number can be turned down, and only when the gate is on and its digits fail the checksum |
| Redactor.Redact | task3_stream_guardrail/redactor.py:234-237 | whole-string redaction is a run of one delta with the default hold |
| Chunking.SentIsFinal | task3_stream_guardrail/redactor.py:112-168 | after any deltas and whatever comes next: released text, and the redaction of the tail with the rest, is the redaction of the whole |
| Chunking.SentHiddenWasMatched | task3_stream_guardrail/redactor.py:112-168 | in every run, for any hold, whatever went out as redacted was a pattern match of the buffer of one of the deltas |
| Chunking.ChunkIndependence | task3_stream_guardrail/redactor.py:112-219 | feeds and flush give the redaction of the text, however it was divided, when its eligible runs fit the hold |
| Threshold.HoldCoversRunsExactly | task3_stream_guardrail/redactor.py:104-110 | for every configuration and bound: all divisions of all texts with runs up to the bound are redacted correctly if and only if the hold covers runs of that length |
| Threshold.LongerRunsGoWrong | task3_stream_guardrail/redactor.py:164-189 | a concrete text, one character over what the hold covers, that streams differently |
| Hold.LongRunCanBeHarmless | task3_stream_guardrail/redactor.py:112-168 | a text of one long run of letters exceeds the hold and yet comes through unchanged in every division |
| Streaming.StreamText | task3_stream_guardrail/redactor.py:98-133 | feeding any deltas and flushing gives the output, the peak and the counts of the run over the deltas, for any hold, and the redaction of the text when its runs fit the hold |
| Hold.HoldKeepsDecisionsExactly | task3_stream_guardrail/redactor.py:54-73 | released decisions agree with every continuation of the buffer if and only if the hold is at least 386 |
| Hold.RetainedIsLongestLiveSuffix | task3_stream_guardrail/redactor.py:170-189 | when runs fit the hold, the tail depends only on the text so far: its longest suffix that could continue a match |
| Hold.DeadCharacterIsReleased | task3_stream_guardrail/redactor.py:170-205 | a character that is no letter, digit or mark, or a space that is not between digits, goes out at once with all before it, for any hold |
| Hold.BufferIsBounded | task3_stream_guardrail/redactor.py:139-168 | for any hold and any deltas the buffer keeps at most hold + 408 characters |
| Hold.PeakIsBounded | task3_stream_guardrail/redactor.py:116-118 | `peak_buffer` is at most that plus the longest delta |
| Lines.IterLines | task3_stream_guardrail/sse.py:133-148 | yields the lines of the whole text whatever the chunking, or stops at exactly the first chunk that exceeds the cap with the lines complete before it; it stops if and only if some chunk and the line it continues have more than 2^20 characters together |
| Lines.TakeLines | task3_stream_guardrail/sse.py:144-146 | the inner loop ends, with the complete lines and a rest without LF |
| Lines.SplitContinues | task3_stream_guardrail/sse.py:139-148 | splitting a longer text is splitting the shorter one and then its rest with the new text |
| Lines.SplitInvertsJoin | task3_stream_guardrail/sse.py:139-148 | splitting recovers any LF-free lines and rest from their joined text, an empty rest being no line |
| Lines.JoinInvertsSplit | task3_stream_guardrail/sse.py:139-148 | joining the lines and the rest of a text gives the text back |
| Lines.CapIsOverflow | task3_stream_guardrail/sse.py:139-143 | reading stops if and only if at some chunk the text since the last line feed and the chunk exceed 2^20 characters |
| Lines.ShortLinesNeverStop | task3_stream_guardrail/sse.py:139-146 | lines of at most L and chunks of at most 2^20 - L never stop a stream, however long it is |
| Lines.LongLineStops | task3_stream_guardrail/sse.py:139-143 | when the cap is not hit, no line is longer than the cap, however the stream was divided |
| Lines.CapStopsEmptyLines | task3_stream_guardrail/sse.py:141-143 | a chunk of line feeds alone hits the cap although each of its lines is empty |
| Lines.WireRoundTrip | task3_stream_guardrail/sse.py:33-38 | reading the guardrail's own output as lines gives each frame followed by a blank line |
| Sse.TransformLine | task3_stream_guardrail/sse.py:79-122 | from the line's characters and the decoder: the frames, the new tail and the failure that it calls for, other fields untouched; for any hold, the redactor has absorbed the line's text and what it has released is what the frames carry |
| Sse.FlushFrames | task3_stream_guardrail/sse.py:91-93 | the tail goes out as one synthetic frame, or none when there is none |
| Sse.RedactStream | task3_stream_guardrail/sse.py:151-171 | the frames of the whole stream as a function of its text, with the flush when no terminator came, and the frames sent before a failure; for any hold, the text of the frames is all accounted for as released or held |
| Sse.StripCRIsBare | task3_stream_guardrail/sse.py:81 | stripping leaves the one prefix that only carriage returns follow and that does not end in one |
| Sse.StripIs | task3_stream_guardrail/sse.py:89 | trimming leaves the one middle part between white space that neither begins nor ends with white space |
| Sse.LineIs | task3_stream_guardrail/sse.py:79-107 | a line fails the stream exactly when it is a data field whose payload is neither the terminator nor an object; it carries exactly the frame the decoder makes of its payload; any other line is forwarded without its carriage returns, or dropped if empty |
| Sse.UnspacedDataIsNotInspected | task3_stream_guardrail/sse.py:84-87 | a line that begins with `data:` is forwarded as it is exactly when no space follows |
| EndToEnd.PipelineDelivers | task3_stream_guardrail/sse.py:79-122 | when the texts fit the hold, after any lines and whatever comes next: the client's message and the held tail make up the redaction of the texts between flushes |
| EndToEnd.ClientReceivesRedaction | task3_stream_guardrail/sse.py:151-171 | when the texts fit the hold, the client's message is the redaction of each flush-delimited text in order, if and only if the upstream, once it has said `[DONE]`, leaves no unflushed text that ends in a character that could continue a match |
| EndToEnd.TextAfterDoneIsLost | task3_stream_guardrail/sse.py:157-171 | with any positive hold, one letter after `[DONE]` never reaches the client |
| EndToEnd.HeldIsLive | task3_stream_guardrail/sse.py:79-122 | when the texts fit the hold, what the pipeline holds is the longest suffix of the text since the last flush that could continue a match |
| EndToEnd.Guard | task3_stream_guardrail/sse.py:133-171 | from the transport's chunks to the client: the stream succeeds if and only if the cap is not hit and every payload decodes, nothing is forwarded uninspected but whole upstream lines that are not data fields, and on success the client has every text-free frame once and in order, and, when the texts fit the hold, the redaction of the texts exactly when none is left behind after `[DONE]`; a stream that fails has sent no more than the redaction of the frames before the failure; for any hold, all text is accounted for |
| EndToEnd.FailureSendsOnlyRedacted | task3_stream_guardrail/sse.py:97-104 | up to the first malformed frame the client has the text-free frames and, when the texts fit the hold, the redaction of the texts up to the tail; the malformed frame adds nothing |
| EndToEnd.SaidIsEveryText | task3_stream_guardrail/sse.py:106-118 | what the redactor absorbed from a well-formed stream is all its texts in order |
| EndToEnd.DivisionDoesNotMatter | task3_stream_guardrail/sse.py:79-171 | when the texts fit the hold and none follows `[DONE]`, two upstreams with the same texts between flushes give the client the same message, however the transport cut them and however the provider divided the texts |
| EndToEnd.DoneLeavesNothing | task3_stream_guardrail/sse.py:157-171 | without content after `[DONE]`, nothing is held when the stream ends |
| EndToEnd.TextFreeFramesSurvive | task3_stream_guardrail/sse.py:84-116 | text-free frames, comments and terminators go out exactly once each and in order |
| EndToEnd.EndAddsOnlyText | task3_stream_guardrail/sse.py:164-171 | the final flush adds no text-free frame |
| EndToEnd.NothingHeldAtTerminal | task3_stream_guardrail/sse.py:90-116 | before a text-free terminal frame or `[DONE]` goes out, the tail is empty and, when the texts fit the hold, the client has the whole redacted message |
| EndToEnd.NothingHeldExactly | task3_stream_guardrail/sse.py:106-118 | when the texts fit the hold, after any frame, terminal ones that carry text included, the tail is empty exactly when the text since the last flush does not end live |
| EndToEnd.TextFrameGoesOut | task3_stream_guardrail/sse.py:118-122 | when the texts fit the hold, a frame with text goes out exactly when it adds text and some character of tail and text cannot continue a match |
| EndToEnd.TerminalTextIsHeld | task3_stream_guardrail/sse.py:107-120 | a terminal frame that carries text goes out while the end of the message is still held |
| EndToEnd.EmptyTerminalIsDropped | task3_stream_guardrail/sse.py:107-122 | a terminal frame whose text is empty never goes out |
| History.ApplyKeepsConsistent | task4_router/limiter.py:164-231 | every transaction keeps the table a window onto the log of admissions, however much was evicted and however late settlements come |
| History.UsedIsLogged | task4_router/limiter.py:258-263 | `used` is the sum of the current charges of the admissions in the window |
| History.WindowHoldsOverHistory | task4_router/limiter.py:164-231 | for every run, tenant and closed interval of window length, the admissions in it, each counted at most at its reservation, fit the limit |
| Eviction.EvictionIsUnobservable | task4_router/limiter.py:250-263 | an evicting table answers every reserve and `used` as one that never deletes, on every run whose clock does not go back |
| Eviction.IdsAreNeverReused | task4_router/limiter.py:49-59 | ids increase along the rows and along the whole history; a new admission's id was never used |
| Eviction.UpdateTouchesOneRow | task4_router/limiter.py:205-213 | an update changes the tokens of the row with that id and nothing else |
| Eviction.DeleteTouchesOneRow | task4_router/limiter.py:224-231 | a delete removes the row with that id and nothing else |
| Eviction.SettlementsNeverCross | task4_router/limiter.py:205-231 | a settlement, however late, leaves every other tenant's usage as it was |
| Eviction.RetryAfterIs | task4_router/limiter.py:265-279 | the retry time is what the tenant's oldest row in the window has left in it, and 0 without a row |
| Eviction.RetryAfterIsLowerBound | task4_router/limiter.py:265-279 | unless something is given back, the same request is refused up to and including now + retry_after |
| Eviction.RetryAfterFreesOldest | task4_router/app.py:49-50 | retry_after is between 0 and the window, and after the whole seconds of the header the oldest row no longer counts |
| Limiter.TokenRateLimiter.ReserveSync | task4_router/limiter.py:164-203 | admits or refuses as the transaction decides; a refusal leaves the table as it was and carries usage and retry time; whatever was evicted, the table stays a window onto the log of admissions |
| Limiter.TokenRateLimiter.ReconcileSync | task4_router/limiter.py:205-222 | sets the reservation's row to the actual cost, or changes nothing if the row is gone; the table stays a window onto the log |
| Limiter.TokenRateLimiter.ReleaseSync | task4_router/limiter.py:224-231 | deletes the reservation's row, or changes nothing; the table stays a window onto the log |
| Limiter.TokenRateLimiter.UsedSync | task4_router/limiter.py:233-238 | the sum over the rows that are left is the sum of the charges of every admission ever made in the window, unless the clock was set back behind what was evicted |
| Serialisable.ReachableInv | task4_router/limiter.py:164-231 | in every reachable state of every interleaving the lock holder's reads are current and the committed table is the serial run of the ended transactions |
| ProtocolTheorems.EveryInterleavingIsSerial | task4_router/limiter.py:167-203 | every interleaving has the table and the admissions of one legal serial run, in commit order with a non-decreasing clock; each decided client is in it exactly once, and no other |
| ProtocolTheorems.ReadIsNeverStale | task4_router/limiter.py:172-193 | the sum a lock holder read is still the committed sum when it decides and when it inserts |
| ProtocolTheorems.SettledExactlyOnce | task4_router/router.py:109-122 | a request that has ended made exactly one settlement, of its own reservation and in the way it ended; a request under way has made none |
| ProviderAnswers.EveryOutcomeSettles | task4_router/router.py:109-152 | in every interleaving the secondary is asked only after a 429 or a timeout of the primary, each is heard at most once, and a request is charged or withdrawn as the deciding answer says |
| ProviderAnswers.AnswersDecide | task4_router/router.py:109-152 | in every interleaving: a second provider is asked exactly after a 429 or a timeout of the first; a served request was charged the tokens its last answer reported, or its estimate if none; an abandoned one had no success |
| ProviderAnswers.TraceFollowsAnswers | task4_router/router.py:109-122 | the settlement that a request left in the trace is the one its last answer calls for |
| ProviderAnswers.EveryRequestCanFinish | task4_router/router.py:107-122 | from every reachable state a request with a reservation can be brought to the settlement that its providers' answers call for, whoever holds the lock |
| ProtocolTheorems.WindowHoldsInEveryState | task4_router/limiter.py:172-196 | the sliding window holds over the history in every reachable state |
| ProtocolTheorems.OvershootIsBounded | task4_router/router.py:121-122 | windowed usage is at most the limit plus what reconciled admissions in the window cost beyond their reservations |
| ProtocolTheorems.PendingIsBounded | task4_router/router.py:71-73 | a tenant's unsettled reservations in the window number at most the limit divided by the smallest reservation |
| ProtocolTheorems.UsageIsConserved | task4_router/router.py:109-122 | with no request in flight, windowed usage is exactly what the served requests admitted in the window were charged |
| ProtocolTheorems.ExactAdmission | task4_router/limiter.py:172-196 | concurrent reservations of one size in one window are admitted exactly up to the limit, in every interleaving |
| Router.EstimateTokens | task4_router/router.py:54-73 | the loops count every text part of every message, and the estimate is never below the minimum |
| Router.EstimateIs | task4_router/router.py:69-73 | the estimate is the whole quotient of the characters plus the tokens asked for, but at least the minimum |
| Router.CharactersOf | task4_router/router.py:62-69 | a text counts in full, a list by its dictionary parts, anything else not at all |
| Router.EstimateGrows | task4_router/router.py:69-73 | more text or a larger `max_tokens` never reserves less |
| Router.CompletionRouter.CallWithFailover | task4_router/router.py:140-152 | the primary is called exactly once, the secondary once after a 429 or a timeout and otherwise never, the outcome is that of the last call, and the call log lists exactly these calls |
| Router.CompletionRouter.RouteCompletion | task4_router/router.py:93-138 | a refusal calls nobody and changes nothing; otherwise the table is changed by the reservation and exactly the settlement of the last provider's outcome, whose tokens are charged (the estimate if it reports none) and whose failure is told as its kind of error, and with a clock that was not set back only the tenant's usage grows, by what it was charged |
| Router.RequestLeavesItsCost | task4_router/router.py:109-122 | a request adds its charge to its tenant's usage if it was served, nothing if it failed, and nothing to any other tenant |

## Left out

- UTF-8 decoding: a chunk is a sequence of characters; the source decodes each chunk separately
  (`task3_stream_guardrail/sse.py:141`), so a multi-byte character split between chunks is not covered.
- JSON parsing and printing: a decoder from payload text to abstract frames is a parameter, and a frame is
  its text, whether it is terminal, and its other fields. That an encoded frame has no raw line feed and is
  never the `[DONE]` frame is assumed; a later choice that is not an object (`sse.py:65`) is not modelled.
- Generators: `iter_lines` and `transform_line` return their lines and frames as sequences; the frames and
  their order are modelled, the moment at which each is forwarded is not.
- SQLite itself: an atomic table with one writer lock and a rollback that restores it is assumed; busy
  timeouts, WAL, durability and exceptions inside a transaction are left out.
- Limiter.TokenRateLimiter.UsedSync: reads the clock and the table at one instant, and so does the `used`
  query of `Eviction`; the source reads the clock first (`task4_router/limiter.py:236`), so a reserve that
  commits in between may already have evicted rows of the older window.
- Eviction.RetryAfterIsLowerBound: is about serial runs; the source computes the retry time after the
  rollback, when another writer may have committed (`task4_router/limiter.py:180-186`).
- Protocol: provider token counts are non-negative and estimates are at least zero; cancellation while the
  reservation is still in its worker thread, and exceptions from a settlement itself, are left out.
- Router.CompletionRouter.RouteCompletion: is one request undisturbed; other requests between its steps are
  the business of `Protocol`. The `Providers` class only counts calls; what each call comes to is arbitrary.
- The clock: a system clock that is set back is excluded (`History.Timely`, `Eviction.ClockUpTo`); floating
  point rounding of times and of `chars_per_token` is not modelled.
- HTTP surfaces, settings, logging, error envelopes, mocks and the benchmark.
- Tasks 1 and 2 (refund ledger, MCP gateway): separate services that share no state with the two cores.
