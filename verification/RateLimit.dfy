/** What the three limiter scripts share: the reply of a script, the result handed to the
    gateway, the rounding of the retry hint, and the expiry of a Redis key. */
module RateLimit {
  import opened Options
  import opened Numbers

  /** The rule of an API. */
  datatype RateLimitSpec = RateLimitSpec(requests: nat, windowSeconds: nat, burst: Option<nat>)

  predicate ValidSpec(rule: RateLimitSpec) { rule.requests > 0 && rule.windowSeconds > 0 }

  /** `{allowed, remaining, retry_after_ms}`, as every script returns it. */
  datatype Reply = Reply(allowed: bool, remaining: int, retryMs: int)

  datatype RateLimitResult = RateLimitResult(allowed: bool, limit: int, remaining: int, retryAfter: int)

  /** Redis versions differ on whether a key is still visible at the very millisecond of its
      deadline. Every statement about expiry is made for both rules. */
  datatype Boundary = GoneAtDeadline | GoneAfterDeadline

  predicate Expired(b: Boundary, nowMs: int, deadlineMs: int) {
    match b
    case GoneAtDeadline => deadlineMs <= nowMs
    case GoneAfterDeadline => deadlineMs < nowMs
  }

  /** Whole seconds that cover `ms`: enough to wait, and less than one second too many. */
  function MsToSecondsCeil(ms: int): (s: int)
    ensures 0 <= s
    ensures ms <= 1000 * s
    ensures 0 <= ms ==> 1000 * s < ms + 1000
  {
    Max(0, -((-ms) / 1000))
  }

  function ToResult(limit: int, reply: Reply): RateLimitResult {
    RateLimitResult(reply.allowed, limit, reply.remaining, MsToSecondsCeil(reply.retryMs))
  }

  /** `k` further calls at one instant. */
  function Again<T>(call: T, k: nat): (calls: seq<T>)
    ensures |calls| == k && forall i | 0 <= i < k :: calls[i] == call
  {
    seq(k, _ => call)
  }

  lemma AgainGrows<T>(call: T, k: nat)
    ensures Again(call, k + 1) == Again(call, k) + [call]
  {
  }
}
