/** Failover across providers: the slots are tried in order, each with its retries, until one succeeds. */
module Router {
  import opened Prelude
  import opened Stream

  datatype ProviderError =
    | Http(message: string)
    | Api(status: nat, message: string)
    | Parse(message: string)
    | RateLimited(retryAfterMs: nat)
    | Unavailable(message: string)

  /** One possible attempt. */
  datatype Call = Call(slot: nat, attempt: nat)

  /** What each attempt gives when it is made: every slot and attempt number is used at most once. */
  type Outcomes<!R> = Call -> Result<R, ProviderError>

  predicate EndsSlot<R>(r: Result<R, ProviderError>) { r.Ok? || r.error.RateLimited? }

  /** The attempt at which a slot stops: the first success or rate limit from `a` on, or its last retry. */
  function LastAttempt<R>(outcomes: Outcomes<R>, slot: nat, a: nat, maxRetries: nat): (r: nat)
    requires a <= maxRetries
    ensures a <= r <= maxRetries
    ensures forall b :: a <= b < r ==> !EndsSlot(outcomes(Call(slot, b)))
    ensures r < maxRetries ==> EndsSlot(outcomes(Call(slot, r)))
    decreases maxRetries - a
  {
    if a == maxRetries || EndsSlot(outcomes(Call(slot, a))) then a else LastAttempt(outcomes, slot, a + 1, maxRetries)
  }

  function SlotResult<R>(slots: seq<nat>, outcomes: Outcomes<R>, slot: nat): Result<R, ProviderError>
    requires slot < |slots|
  {
    outcomes(Call(slot, LastAttempt(outcomes, slot, 0, slots[slot])))
  }

  /** The calls of one slot, up to and including attempt `a`. */
  function CallsUpTo(slot: nat, a: nat): seq<Call> {
    if a == 0 then [Call(slot, 0)] else CallsUpTo(slot, a - 1) + [Call(slot, a)]
  }

  /** Whether every one of the first `n` slots fails. */
  predicate AllFail<R>(slots: seq<nat>, outcomes: Outcomes<R>, n: nat)
    requires n <= |slots|
  {
    forall s :: 0 <= s < n ==> SlotResult(slots, outcomes, s).Err?
  }

  /** The calls made in the first `n` slots, when they all fail. */
  function CallsBefore<R>(slots: seq<nat>, outcomes: Outcomes<R>, n: nat): seq<Call>
    requires n <= |slots|
  {
    if n == 0 then []
    else CallsBefore(slots, outcomes, n - 1) + CallsUpTo(n - 1, LastAttempt(outcomes, n - 1, 0, slots[n - 1]))
  }

  /** A result is right for a list of calls when the calls run through the slots in order, all of them
      failing but perhaps the last, and the result is the last call's. */
  ghost predicate IsFailover<R>(slots: seq<nat>, outcomes: Outcomes<R>, calls: seq<Call>, r: Result<R, ProviderError>) {
    if r.Ok? then
      exists s :: 0 <= s < |slots| && AllFail(slots, outcomes, s) && r == SlotResult(slots, outcomes, s) &&
                  calls == CallsBefore(slots, outcomes, s + 1)
    else
      AllFail(slots, outcomes, |slots|) && calls == CallsBefore(slots, outcomes, |slots|) &&
      r == if |slots| == 0 then Err(Unavailable("all providers failed")) else SlotResult(slots, outcomes, |slots| - 1)
  }

  /** `slots` gives each provider's `max_retries`.  `calls` records the attempts made. */
  method Send<R>(slots: seq<nat>, outcomes: Outcomes<R>) returns (r: Result<R, ProviderError>, calls: seq<Call>)
    ensures IsFailover(slots, outcomes, calls, r)
  {
    calls := [];
    var lastErr: Option<ProviderError> := None;
    for slot := 0 to |slots|
      invariant AllFail(slots, outcomes, slot) && calls == CallsBefore(slots, outcomes, slot)
      invariant slot == 0 ==> lastErr.None?
      invariant slot > 0 ==> lastErr.Some? && SlotResult(slots, outcomes, slot - 1) == Err(lastErr.value)
    {
      var attempt := 0;
      var last := LastAttempt(outcomes, slot, 0, slots[slot]);
      while attempt <= slots[slot]
        invariant attempt <= last + 1 && last == LastAttempt(outcomes, slot, 0, slots[slot])
        invariant attempt <= last ||
                  (attempt == last + 1 == slots[slot] + 1 && lastErr.Some? &&
                    SlotResult(slots, outcomes, slot) == Err(lastErr.value))
        invariant calls == CallsBefore(slots, outcomes, slot) +
                  if attempt == 0 then [] else CallsUpTo(slot, attempt - 1)
        decreases slots[slot] + 1 - attempt
      {
        var result := outcomes(Call(slot, attempt));
        calls := calls + [Call(slot, attempt)];
        assert calls == CallsBefore(slots, outcomes, slot) + CallsUpTo(slot, attempt);
        if result.Ok? {
          r := Ok(result.value);
          return;
        }
        lastErr := Some(result.error);
        if result.error.RateLimited? { break; }
        attempt := attempt + 1;
      }
    }
    r := if lastErr.Some? then Err(lastErr.value) else Err(Unavailable("all providers failed"));
  }

  // ---------------------------------------------------------------------
  // What failover guarantees
  // ---------------------------------------------------------------------

  /** An attempt that failover would come to, if every earlier slot failed. */
  predicate Open<R>(slots: seq<nat>, outcomes: Outcomes<R>, c: Call) {
    c.slot < |slots| && c.attempt <= slots[c.slot] &&
    forall b :: 0 <= b < c.attempt ==> IsRetried(outcomes(Call(c.slot, b)))
  }

  /** Any failure but a rate limit is retried. */
  predicate IsRetried<R>(r: Result<R, ProviderError>) { r.Err? && !r.error.RateLimited? }

  predicate Earlier(a: Call, b: Call) { a.slot < b.slot || (a.slot == b.slot && a.attempt < b.attempt) }

  lemma OpenUpToLast<R>(slots: seq<nat>, outcomes: Outcomes<R>, c: Call)
    ensures Open(slots, outcomes, c) <==>
            c.slot < |slots| && c.attempt <= LastAttempt(outcomes, c.slot, 0, slots[c.slot])
  {
    if c.slot < |slots| {
      var last := LastAttempt(outcomes, c.slot, 0, slots[c.slot]);
      if last < c.attempt <= slots[c.slot] { assert EndsSlot(outcomes(Call(c.slot, last))); }
    }
  }

  lemma OpenFailure<R>(slots: seq<nat>, outcomes: Outcomes<R>, c: Call)
    requires Open(slots, outcomes, c) && SlotResult(slots, outcomes, c.slot).Err?
    ensures outcomes(c).Err?
  {
    OpenUpToLast(slots, outcomes, c);
    assert c == Call(c.slot, c.attempt);
    if c.attempt < LastAttempt(outcomes, c.slot, 0, slots[c.slot]) { assert !EndsSlot(outcomes(c)); }
  }

  /** The answer is the first success in slot and attempt order among the attempts that are not barred
      by a rate limit before them in their slot; and an error only when there is no such success. */
  lemma FirstSuccessWins<R>(slots: seq<nat>, outcomes: Outcomes<R>, calls: seq<Call>, r: Result<R, ProviderError>)
    requires IsFailover(slots, outcomes, calls, r)
    ensures r.Ok? ==> exists c :: Open(slots, outcomes, c) && outcomes(c) == r &&
                        forall b :: Open(slots, outcomes, b) && Earlier(b, c) ==> outcomes(b).Err?
    ensures r.Err? ==> forall c :: Open(slots, outcomes, c) ==> outcomes(c).Err?
  {
    if r.Ok? {
      var s :| 0 <= s < |slots| && AllFail(slots, outcomes, s) && r == SlotResult(slots, outcomes, s);
      var c := Call(s, LastAttempt(outcomes, s, 0, slots[s]));
      OpenUpToLast(slots, outcomes, c);
      forall b | Open(slots, outcomes, b) && Earlier(b, c) ensures outcomes(b).Err? {
        if b.slot < s { OpenFailure(slots, outcomes, b); }
        else { assert b == Call(s, b.attempt) && !EndsSlot(outcomes(b)); }
      }
    } else {
      forall c | Open(slots, outcomes, c) ensures outcomes(c).Err? { OpenFailure(slots, outcomes, c); }
    }
  }

  lemma {:induction false} CallsUpToAre(slot: nat, a: nat)
    ensures |CallsUpTo(slot, a)| == a + 1
    ensures forall i :: 0 <= i <= a ==> CallsUpTo(slot, a)[i] == Call(slot, i)
  {
    if a > 0 { CallsUpToAre(slot, a - 1); }
  }

  function Budget(slots: seq<nat>, n: nat): nat
    requires n <= |slots|
  {
    if n == 0 then 0 else Budget(slots, n - 1) + slots[n - 1] + 1
  }

  /** The calls are in slot and attempt order, so none is made twice; each is open, so a slot is not
      called again after a rate limit; and there are at most as many as there are attempts configured. */
  ghost predicate Orderly<R>(slots: seq<nat>, outcomes: Outcomes<R>, calls: seq<Call>, n: nat)
    requires n <= |slots|
  {
    |calls| <= Budget(slots, n) &&
    (forall i :: 0 <= i < |calls| ==> calls[i].slot < n && Open(slots, outcomes, calls[i])) &&
    (forall i, j :: 0 <= i < j < |calls| ==> Earlier(calls[i], calls[j]))
  }

  lemma {:induction false} CallsAreOrderly<R>(slots: seq<nat>, outcomes: Outcomes<R>, n: nat)
    requires n <= |slots|
    ensures Orderly(slots, outcomes, CallsBefore(slots, outcomes, n), n)
  {
    if n > 0 {
      CallsAreOrderly(slots, outcomes, n - 1);
      var last := LastAttempt(outcomes, n - 1, 0, slots[n - 1]);
      CallsUpToAre(n - 1, last);
      forall c: Call | c.slot == n - 1 && c.attempt <= last ensures Open(slots, outcomes, c) {
        OpenUpToLast(slots, outcomes, c);
      }
    }
  }

  lemma {:induction false} BudgetGrows(slots: seq<nat>, n: nat, m: nat)
    requires n <= m <= |slots|
    ensures Budget(slots, n) <= Budget(slots, m)
    decreases m
  {
    if n < m { BudgetGrows(slots, n, m - 1); }
  }

  /** At most the configured attempts are made, in order, and no slot again after it rate-limits; the
      result is what the last call made gave. */
  lemma FailoverIsBounded<R>(slots: seq<nat>, outcomes: Outcomes<R>, calls: seq<Call>, r: Result<R, ProviderError>)
    requires IsFailover(slots, outcomes, calls, r)
    ensures Orderly(slots, outcomes, calls, |slots|)
    ensures forall i, j :: 0 <= i < j < |calls| && calls[i].slot == calls[j].slot ==>
              outcomes(calls[i]).Err? && !outcomes(calls[i]).error.RateLimited?
    ensures |slots| > 0 ==> |calls| > 0 && r == outcomes(calls[|calls| - 1])
    ensures forall i :: 0 <= i < |calls| - 1 ==> outcomes(calls[i]).Err?
  {
    var n := |slots|;
    if r.Ok? {
      var s :| 0 <= s < |slots| && AllFail(slots, outcomes, s) && r == SlotResult(slots, outcomes, s) &&
               calls == CallsBefore(slots, outcomes, s + 1);
      n := s + 1;
    }
    CallsAreOrderly(slots, outcomes, n);
    BudgetGrows(slots, n, |slots|);
    if n > 0 { LastCallIs(slots, outcomes, n); }
    forall i, j | 0 <= i < j < |calls| && calls[i].slot == calls[j].slot
      ensures !EndsSlot(outcomes(calls[i]))
    {
      assert calls[i] == Call(calls[j].slot, calls[i].attempt) && Earlier(calls[i], calls[j]);
    }
    forall i | 0 <= i < |calls| - 1 ensures outcomes(calls[i]).Err? {
      if calls[i].slot < n - 1 { OpenFailure(slots, outcomes, calls[i]); }
      else { assert calls[i].slot == calls[|calls| - 1].slot; }
    }
  }

  lemma LastCallIs<R>(slots: seq<nat>, outcomes: Outcomes<R>, n: nat)
    requires 0 < n <= |slots|
    ensures var calls := CallsBefore(slots, outcomes, n);
            |calls| > 0 && calls[|calls| - 1] == Call(n - 1, LastAttempt(outcomes, n - 1, 0, slots[n - 1]))
  {
    CallsUpToAre(n - 1, LastAttempt(outcomes, n - 1, 0, slots[n - 1]));
  }

  // ---------------------------------------------------------------------
  // Streaming
  // ---------------------------------------------------------------------

  datatype ProviderKind = Anthropic | OpenAi | Ollama | NonStreaming

  /** What comes back over HTTP; `events` is what the provider's stream decoder sends for the body. */
  datatype Answer =
    | Unreachable(connectOrTimeout: bool, message: string)
    | Answered(status: nat, retryAfter: Option<nat>, body: string, events: seq<StreamEvent>)
    | Whole(result: Result<ChatResponse, ProviderError>)  // of a provider that does not stream

  /** The result of one streaming attempt, and the events it sent. */
  datatype Attempt = Attempt(result: Result<(), ProviderError>, events: seq<StreamEvent>)

  predicate Success(status: nat) { 200 <= status < 300 }

  function RetryAfterMs(kind: ProviderKind, retryAfter: Option<nat>): nat {
    if retryAfter.None? then 5000 else if kind.OpenAi? then retryAfter.value * 1000 else retryAfter.value
  }

  function Answering(kind: ProviderKind, a: Answer): Attempt {
    match a
    case Unreachable(connectOrTimeout, message) =>
      Attempt(Err(if kind.Ollama? && connectOrTimeout then Unavailable(message) else Http(message)), [])
    case Answered(status, retryAfter, body, events) =>
      if status == 429 && !kind.Ollama? then Attempt(Err(RateLimited(RetryAfterMs(kind, retryAfter))), [])
      else if !Success(status) then Attempt(Err(Api(status, body)), [])
      else Attempt(Ok(()), events)
    case Whole(Err(e)) => Attempt(Err(e), [])
    case Whole(Ok(m)) =>
      Attempt(Ok(()), [TextDelta(m.content), StreamEvent.Done(m.model, m.tokensIn, m.tokensOut, m.stopReason)])
  }

  /** What the receiver of all the attempts' events sees. */
  function Seen(attempts: Call -> Attempt, calls: seq<Call>): seq<StreamEvent> {
    if |calls| == 0 then [] else Seen(attempts, calls[..|calls| - 1]) + attempts(calls[|calls| - 1]).events
  }

  lemma {:induction false} FailuresAreNotSeen(attempts: Call -> Attempt, calls: seq<Call>)
    requires forall i :: 0 <= i < |calls| ==> attempts(calls[i]).events == []
    ensures Seen(attempts, calls) == []
  {
    if |calls| > 0 { FailuresAreNotSeen(attempts, calls[..|calls| - 1]); }
  }

  function KindAt(kinds: seq<ProviderKind>, slot: nat): ProviderKind
  { if slot < |kinds| then kinds[slot] else NonStreaming }

  function Streamed(kinds: seq<ProviderKind>, answers: Call -> Answer): Call -> Attempt {
    (c: Call) => Answering(KindAt(kinds, c.slot), answers(c))
  }

  function Results(kinds: seq<ProviderKind>, answers: Call -> Answer): Outcomes<()> {
    (c: Call) => Answering(KindAt(kinds, c.slot), answers(c)).result
  }

  /** A stream through the router shows its receiver the events of the attempt that succeeded, and of
      no other; nothing at all if none did. */
  lemma OneAttemptIsSeen(slots: seq<nat>, kinds: seq<ProviderKind>, answers: Call -> Answer,
      calls: seq<Call>, r: Result<(), ProviderError>)
    requires |kinds| == |slots| > 0
    requires IsFailover(slots, Results(kinds, answers), calls, r)
    ensures |calls| > 0
    ensures Seen(Streamed(kinds, answers), calls) ==
            if r.Ok? then Streamed(kinds, answers)(calls[|calls| - 1]).events else []
  {
    hide IsFailover, Answering, Orderly;
    FailoverIsBounded(slots, Results(kinds, answers), calls, r);
    forall i | 0 <= i < |calls|
      ensures Results(kinds, answers)(calls[i]).Err? ==> Streamed(kinds, answers)(calls[i]).events == [] {
      ErrorsAreSilent(KindAt(kinds, calls[i].slot), answers(calls[i]));
    }
    OnlyLastIsSeen(Streamed(kinds, answers), calls);
  }

  /** What an attempt makes of an answer.  It succeeds exactly on a status of 200 to 299, with the events of
      the body; on 429 it is rate-limited, though never from Ollama; every other status is an API error with
      that status and body; and without an answer it fails on the transport. */
  lemma AttemptIs(kind: ProviderKind, a: Answer)
    ensures var t := Answering(kind, a);
            match a
            case Answered(status, retryAfter, body, events) =>
              (t.result.Ok? <==> 200 <= status <= 299) && (t.result.Ok? ==> t.events == events) &&
              (t.result.Err? ==>
                 (t.result.error.RateLimited? <==> status == 429 && kind != Ollama) &&
                 (!t.result.error.RateLimited? ==> t.result.error == Api(status, body))) &&
              (t.result.Err? && t.result.error.RateLimited? && kind == Anthropic ==>
                 t.result.error.retryAfterMs == if retryAfter.Some? then retryAfter.value else 5000) &&
              (t.result.Err? && t.result.error.RateLimited? && kind == OpenAi ==>
                 t.result.error.retryAfterMs == if retryAfter.Some? then 1000 * retryAfter.value else 5000)
            case Unreachable(connectOrTimeout, message) =>
              t.result == Err(if kind == Ollama && connectOrTimeout then Unavailable(message) else Http(message))
            case Whole(result) =>
              (t.result.Ok? <==> result.Ok?) && (result.Err? ==> t.result == Err(result.error)) &&
              (result.Ok? ==> Says(t.events, result.value.(toolCalls := [])))
  {
    if a.Whole? && a.result.Ok? {
      var m := a.result.value;
      Appended([], TextDelta(m.content));
      Appended([TextDelta(m.content)], Done(m.model, m.tokensIn, m.tokensOut, m.stopReason));
      assert Answering(kind, a).events == [] + [TextDelta(m.content)] +
                                          [Done(m.model, m.tokensIn, m.tokensOut, m.stopReason)];
      NothingAdded(m.content);
    }
  }

  /** Every provider fails, if it does, before its first event. */
  lemma ErrorsAreSilent(kind: ProviderKind, a: Answer)
    ensures Answering(kind, a).result.Err? ==> Answering(kind, a).events == []
  {}

  lemma OnlyLastIsSeen(attempts: Call -> Attempt, calls: seq<Call>)
    requires |calls| > 0 && forall i :: 0 <= i < |calls| - 1 ==> attempts(calls[i]).events == []
    ensures Seen(attempts, calls) == attempts(calls[|calls| - 1]).events
  {
    FailuresAreNotSeen(attempts, calls[..|calls| - 1]);
  }
}
