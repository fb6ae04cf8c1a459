/** Retrying transient failures of outbound requests (``RetryTransport``, app/fetchers/transport.py). */
module RetryTransport {
  import opened Wrappers

  const MAX_SLEEP_SECONDS: real := 30.0

  const RETRYABLE_STATUS: set<int> := {429, 500, 502, 503, 504}

  datatype Method = GET | HEAD | OPTIONS | POST | PUT | PATCH | DELETE

  datatype Request = Request(verb: Method, optsIn: bool)
  {
    predicate Retryable() { verb.GET? || verb.HEAD? || verb.OPTIONS? || optsIn }
  }

  /** One reply of the inner transport. ``retryAfter`` is the parsed header, ``None`` when it is missing
      or cannot be parsed; a parsed one is never negative. */
  datatype Reply = TransportError | Response(status: int, retryAfter: Option<real>)

  datatype Config = Config(maxRetries: int, base: real, cap: real)

  /** Everything outside the loop: the replies to the successive sends, and the jitter, a fraction of
      the backoff ceiling. */
  datatype World = World(replies: nat -> Reply, jitter: nat -> real)

  ghost predicate Reasonable(w: World) {
    && (forall n :: 0.0 <= w.jitter(n) <= 1.0)
    && (forall n :: w.replies(n).Response? && w.replies(n).retryAfter.Some? ==> w.replies(n).retryAfter.value >= 0.0)
  }

  function Power(attempt: nat): nat { if attempt == 0 then 1 else 2 * Power(attempt - 1) }

  function Lesser(a: real, b: real): real { if a <= b then a else b }

  function Greater(a: real, b: real): real { if a >= b then a else b }

  /** ``_backoff_delay`` with full jitter. */
  function BackoffDelay(config: Config, jitter: real, attempt: nat): real {
    jitter * Greater(Lesser(config.cap, config.base * Power(attempt) as real), 0.0)
  }

  /** A reply that is worth another attempt. */
  predicate Transient(reply: Reply) { reply.TransportError? || reply.status in RETRYABLE_STATUS }

  /** The header is honoured on 429 and 503 only. */
  function RetryAfter(reply: Reply): Option<real> {
    if reply.Response? && (reply.status == 429 || reply.status == 503) then reply.retryAfter else None
  }

  function Delay(config: Config, w: World, attempt: nat): real {
    var asked := RetryAfter(w.replies(attempt));
    Lesser(if asked.Some? then asked.value else BackoffDelay(config, w.jitter(attempt), attempt), MAX_SLEEP_SECONDS)
  }

  /** The time slept before send ``n``, counting from zero. */
  function TotalDelay(config: Config, w: World, n: nat): real {
    if n == 0 then 0.0 else TotalDelay(config, w, n - 1) + Delay(config, w, n - 1)
  }

  function Retries(config: Config, request: Request): nat {
    if request.Retryable() && config.maxRetries > 0 then config.maxRetries else 0
  }

  /** ``handle_async_request``: ``result`` is the reply handed back, an error being raised; ``sends`` and
      ``slept`` count what it took. */
  method HandleRequest(config: Config, w: World, request: Request)
    returns (result: Reply, sends: nat, slept: real)
    requires Reasonable(w)
    // The reply handed back is that of the last send; all earlier ones were transient.
    ensures 1 <= sends <= Retries(config, request) + 1
    ensures result == w.replies(sends - 1)
    ensures forall n: nat | n < sends - 1 :: Transient(w.replies(n))
    // It stops at the first reply that is not transient, and at the limit.
    ensures Transient(result) ==> sends == Retries(config, request) + 1
    ensures slept == TotalDelay(config, w, sends - 1)
    ensures 0.0 <= slept <= MAX_SLEEP_SECONDS * (sends - 1) as real
    ensures sends > 1 ==> slept <= MAX_SLEEP_SECONDS * config.maxRetries as real
    ensures !request.Retryable() ==> sends == 1 && slept == 0.0
    // In plain terms: what is sent again, and after what.
    ensures request.verb in {POST, PUT, PATCH, DELETE} && !request.optsIn ==> sends == 1
    ensures forall n: nat | n < sends - 1 ::
              w.replies(n).TransportError? || w.replies(n).status in {429, 500, 502, 503, 504}
  {
    var attempt: nat := 0;
    slept := 0.0;
    sends := 0;
    while true
      invariant sends == attempt <= Retries(config, request)
      invariant forall n: nat | n < attempt :: Transient(w.replies(n))
      invariant slept == TotalDelay(config, w, attempt)
      invariant 0.0 <= slept <= MAX_SLEEP_SECONDS * attempt as real
      decreases Retries(config, request) - attempt
    {
      result := w.replies(attempt);
      sends := sends + 1;
      if result.TransportError? {
        if !request.Retryable() || attempt >= config.maxRetries {
          return;
        }
        DelayBounds(config, w, attempt);
        slept := slept + Lesser(BackoffDelay(config, w.jitter(attempt), attempt), MAX_SLEEP_SECONDS);
        attempt := attempt + 1;
        continue;
      }
      if request.Retryable() && result.status in RETRYABLE_STATUS && attempt < config.maxRetries {
        var retryAfter := None;
        if result.status == 429 || result.status == 503 {
          retryAfter := result.retryAfter;
        }
        DelayBounds(config, w, attempt);
        slept := slept + Lesser(if retryAfter.Some? then retryAfter.value
                                else BackoffDelay(config, w.jitter(attempt), attempt), MAX_SLEEP_SECONDS);
        attempt := attempt + 1;
        continue;
      }
      return;
    }
  }

  lemma DelayBounds(config: Config, w: World, attempt: nat)
    requires Reasonable(w)
    ensures 0.0 <= Delay(config, w, attempt) <= MAX_SLEEP_SECONDS
  {
    var ceiling := Greater(Lesser(config.cap, config.base * Power(attempt) as real), 0.0);
    assert w.jitter(attempt) * ceiling >= 0.0;
  }

  /** A 429 or 503 that asks for at most 30 seconds is waited out exactly, and one that asks for longer is
      cut to 30; every other reply backs off instead. */
  lemma RetryAfterHonoured(config: Config, w: World, attempt: nat)
    ensures var reply := w.replies(attempt);
            var asks := reply.Response? && (reply.status == 429 || reply.status == 503) && reply.retryAfter.Some?;
            && (asks && reply.retryAfter.value <= 30.0 ==> Delay(config, w, attempt) == reply.retryAfter.value)
            && (asks && reply.retryAfter.value > 30.0 ==> Delay(config, w, attempt) == 30.0)
            && (!asks ==> Delay(config, w, attempt) ==
                          Lesser(BackoffDelay(config, w.jitter(attempt), attempt), 30.0))
  {
  }

  /** The longest backoff before retry ``attempt``, counting from zero. */
  function Ceiling(config: Config, attempt: nat): real { BackoffDelay(config, 1.0, attempt) }

  /** The ceiling starts at the base and doubles up to the cap; the jitter takes a fraction of it. */
  lemma CeilingDoubles(config: Config, jitter: real, attempt: nat)
    requires config.base >= 0.0 && config.cap >= 0.0 && 0.0 <= jitter <= 1.0
    ensures Ceiling(config, 0) == Lesser(config.cap, config.base)
    ensures Ceiling(config, attempt + 1) == Lesser(config.cap, 2.0 * Ceiling(config, attempt))
    ensures 0.0 <= BackoffDelay(config, jitter, attempt) <= Ceiling(config, attempt)
    ensures BackoffDelay(config, jitter, attempt) == jitter * Ceiling(config, attempt)
  {
    var p := Power(attempt) as real;
    assert Power(attempt + 1) as real == 2.0 * p;
    assert config.base * p >= 0.0;
    assert config.base * (2.0 * p) == 2.0 * (config.base * p);
  }
}
