/** The retry loop of the Go SDK (sdk-go/client.go), in 64-bit arithmetic that wraps around. Durations are
    nanoseconds; `Retry-After` is section 10.2.3 of RFC 9110. */
module RetryLoop {
  import opened Wrappers

  const TWO_63: int := 0x8000_0000_0000_0000
  const TWO_64: int := 0x1_0000_0000_0000_0000

  type int64 = x: int | -0x8000_0000_0000_0000 <= x < 0x8000_0000_0000_0000

  const SECOND: int := 1_000_000_000
  const DEFAULT_BACKOFF_BASE: int64 := 500_000_000
  const DEFAULT_BACKOFF_MAX: int64 := 30_000_000_000
  const DEFAULT_STATUSES: set<int> := {429, 500, 502, 503, 504}
  const IDEMPOTENT_METHODS: set<string> := {"GET", "HEAD", "PUT", "DELETE", "OPTIONS"}

  /** The value a 64-bit register holds after computing `x`. */
  function Wrap(x: int): int64 { (x + TWO_63) % TWO_64 - TWO_63 }

  function Pow2(n: nat): nat { if n == 0 then 1 else 2 * Pow2(n - 1) }

  /** `x << n`; a shift by the width or more gives zero. */
  function ShiftLeft(x: int64, n: nat): int64 { if n >= 64 then 0 else Wrap(x * Pow2(n)) }

  datatype RetryConfig = RetryConfig(maxRetries: int64, backoffBase: int64, backoffMax: int64,
                                     statuses: Option<set<int>>, methods: Option<set<string>>, respectRetryAfter: bool)

  /** A client's configuration, after `WithRetry` filled in the defaults. */
  datatype Policy = Policy(maxRetries: int64, backoffBase: int64, backoffMax: int64,
                           statuses: set<int>, methods: set<string>, respectRetryAfter: bool)

  function WithRetry(cfg: RetryConfig): (p: Policy)
    ensures p.backoffBase > 0 && p.backoffMax > 0
    ensures p.maxRetries == cfg.maxRetries && p.respectRetryAfter == cfg.respectRetryAfter
    ensures cfg.methods == None ==> p.methods == {"GET", "HEAD", "PUT", "DELETE", "OPTIONS"}
    ensures cfg.statuses == None ==> p.statuses == {429, 500, 502, 503, 504}
    ensures cfg.methods.Some? ==> p.methods == cfg.methods.value
    ensures cfg.statuses.Some? ==> p.statuses == cfg.statuses.value
    ensures p.backoffBase == if cfg.backoffBase > 0 then cfg.backoffBase else 500_000_000
    ensures p.backoffMax == if cfg.backoffMax > 0 then cfg.backoffMax else 30_000_000_000
  {
    Policy(cfg.maxRetries,
           if cfg.backoffBase <= 0 then DEFAULT_BACKOFF_BASE else cfg.backoffBase,
           if cfg.backoffMax <= 0 then DEFAULT_BACKOFF_MAX else cfg.backoffMax,
           if cfg.statuses.None? then DEFAULT_STATUSES else cfg.statuses.value,
           if cfg.methods.None? then IDEMPOTENT_METHODS else cfg.methods.value,
           cfg.respectRetryAfter)
  }

  function ToUpper(s: string): string {
    seq(|s|, i requires 0 <= i < |s| => if 'a' <= s[i] <= 'z' then (s[i] as int - 32) as char else s[i])
  }

  predicate ShouldRetry(policy: Option<Policy>, verb: string, attempt: nat, status: int) {
    && policy.Some?
    && attempt < policy.value.maxRetries
    && ToUpper(verb) in policy.value.methods
    && (status == 0 || status in policy.value.statuses)
  }

  // --------------------------------------------------------------- waits

  /** A `Retry-After` header: missing, a decimal integer of any size, a date this far ahead, or neither. */
  datatype Header = Absent | Number(n: int) | Date(ahead: int64) | Junk

  /** The wait a header asks for, or -1. An integer that does not fit is rejected by `Atoi`; the product
      with a second wraps around. */
  function ParseRetryAfter(h: Header): int64 {
    match h
    case Absent => -1
    case Junk => -1
    case Date(ahead) => if ahead > 0 then ahead else 0
    case Number(n) =>
      if !(-TWO_63 <= n < TWO_63) then -1
      else Wrap((if n < 0 then 0 else n) * SECOND)
  }

  function RetryAfterFrom(policy: Policy, h: Header): int64 {
    if policy.respectRetryAfter then ParseRetryAfter(h) else -1
  }

  function Ceiling(policy: Policy, attempt: nat): (c: int64)
    requires policy.backoffMax > 0
    ensures 0 < c <= policy.backoffMax
  {
    var c := ShiftLeft(policy.backoffBase, attempt);
    if c <= 0 || c > policy.backoffMax then policy.backoffMax else c
  }

  /** `jitter` stands for the random number: any wait from 0 to the ceiling can come out. */
  function RetryDelay(policy: Policy, attempt: nat, retryAfter: int64, jitter: nat): (d: int64)
    requires policy.backoffMax > 0
    ensures 0 <= d <= policy.backoffMax
  {
    if retryAfter >= 0 then
      if retryAfter > policy.backoffMax then policy.backoffMax else retryAfter
    else
      jitter % (Ceiling(policy, attempt) + 1)
  }

  /** The wait that doubles with every attempt, up to the maximum: computed right exactly if the doubled base
      fits 64 bits, or what is left of it after the overflow is not positive or not below the maximum. */
  lemma {:induction false} CeilingExactly(policy: Policy, attempt: nat)
    requires policy.backoffBase > 0 && policy.backoffMax > 0
    ensures var doubled := policy.backoffBase * Pow2(attempt);
      Ceiling(policy, attempt) == Capped(doubled, policy.backoffMax) <==>
        doubled < TWO_63 || !(0 < ShiftLeft(policy.backoffBase, attempt) < policy.backoffMax)
  {
    Pow2Positive(attempt);
    AtLeast(policy.backoffBase, Pow2(attempt));
    if attempt >= 64 {
      Pow2Grows(64, attempt);
      PowersOfTwo();
    } else {
      ShiftIsWrap(policy.backoffBase, attempt);
      WrapIsExact(policy.backoffBase * Pow2(attempt));
    }
  }

  lemma ShiftIsWrap(x: int64, n: nat)
    requires n < 64
    ensures ShiftLeft(x, n) == Wrap(x * Pow2(n))
  {}

  lemma {:induction false} Pow2Positive(n: nat)
    ensures Pow2(n) > 0
  {
    if n > 0 {
      Pow2Positive(n - 1);
    }
  }

  lemma {:induction false} Pow2Sum(a: nat, b: nat)
    ensures Pow2(a + b) == Pow2(a) * Pow2(b)
  {
    if a > 0 {
      Pow2Sum(a - 1, b);
    }
  }

  lemma PowersOfTwo()
    ensures Pow2(33) == 8_589_934_592 && Pow2(34) == 17_179_869_184 && Pow2(64) == TWO_64
  {
    assert Pow2(8) == 256;
    Pow2Sum(8, 8);
    Pow2Sum(16, 16);
    Pow2Sum(32, 32);
    assert Pow2(32) == 4_294_967_296;
  }

  lemma {:induction false} Pow2Grows(a: nat, b: nat)
    requires a <= b
    ensures Pow2(a) <= Pow2(b)
    decreases b
  {
    if a < b {
      Pow2Grows(a, b - 1);
    }
  }

  lemma AtLeast(a: nat, b: nat)
    requires a > 0
    ensures a * b >= b
  {}

  /** A base just over a second and a cap of 30 seconds: the backoff falls back to 17 seconds at attempt 34. */
  lemma BackoffOverflows(policy: Policy)
    requires policy.backoffBase == 1_073_741_825 && policy.backoffMax == DEFAULT_BACKOFF_MAX
    ensures Ceiling(policy, 33) == 30_000_000_000 && Ceiling(policy, 34) == 17_179_869_184
  {
    PowersOfTwo();
  }

  /** Without a header to follow, every wait from nothing to the ceiling can come out, and no other. */
  lemma JitterIsFull(policy: Policy, attempt: nat, d: int)
    requires policy.backoffMax > 0
    ensures (exists jitter: nat :: RetryDelay(policy, attempt, -1, jitter) == d) <==> 0 <= d <= Ceiling(policy, attempt)
  {
    if 0 <= d <= Ceiling(policy, attempt) {
      SmallRemainder(d, Ceiling(policy, attempt) + 1);
      assert RetryDelay(policy, attempt, -1, d) == d;
    }
  }

  /** Other headers: a date asks for the time until then, or for none if it is past; anything else, and any
      header of a client that does not respect them, leaves the backoff. */
  lemma OtherHeaders(policy: Policy, attempt: nat, h: Header, jitter: nat)
    requires policy.backoffMax > 0
    ensures policy.respectRetryAfter && h.Date? ==>
      RetryDelay(policy, attempt, RetryAfterFrom(policy, h), jitter)
      == Capped(if h.ahead > 0 then h.ahead else 0, policy.backoffMax)
    ensures !policy.respectRetryAfter || h.Absent? || h.Junk? ==>
      RetryDelay(policy, attempt, RetryAfterFrom(policy, h), jitter) == RetryDelay(policy, attempt, -1, jitter)
  {}

  lemma WrapIsExact(x: int)
    ensures Wrap(x) == x <==> -TWO_63 <= x < TWO_63
  {}

  /** What a header should mean: that many seconds, never less than zero. */
  function Requested(n: int): int { (if n < 0 then 0 else n) * SECOND }

  /** A delta in seconds is understood exactly up to 9223372036, about 292 years; above, it wraps. */
  lemma SecondsAreExactUpTo(n: int)
    ensures ParseRetryAfter(Number(n)) == Requested(n) <==> -TWO_63 <= n <= 9_223_372_036
  {
    if -TWO_63 <= n < TWO_63 {
      WrapIsExact(Requested(n));
    }
  }

  function Capped(x: int, max: int): int { if x > max then max else x }

  /** A respected header of `n` seconds leads to the wait it asks for, capped, for every jitter, exactly if
      the product does not overflow, or overflows to something that is still at least the cap. */
  lemma HonouredExactly(policy: Policy, attempt: nat, n: int)
    requires policy.backoffMax > 0 && policy.respectRetryAfter
    ensures (forall jitter: nat ::
              RetryDelay(policy, attempt, RetryAfterFrom(policy, Number(n)), jitter)
              == Capped(Requested(n), policy.backoffMax))
       <==> -TWO_63 <= n < TWO_63 && (n <= 9_223_372_036 || Wrap(n * SECOND) >= policy.backoffMax)
  {
    var after := RetryAfterFrom(policy, Number(n));
    if after < 0 {
      assert 0 % (Ceiling(policy, attempt) + 1) == 0;
      JitterVaries(policy, attempt, after);
      NegativeIsOverflow(n);
    } else {
      assert forall jitter: nat :: RetryDelay(policy, attempt, after, jitter) == Capped(after, policy.backoffMax);
      assert RetryDelay(policy, attempt, after, 0) == Capped(after, policy.backoffMax);
      SecondsAreExactUpTo(n);
    }
  }

  lemma JitterVaries(policy: Policy, attempt: nat, after: int64)
    requires policy.backoffMax > 0 && after < 0
    ensures RetryDelay(policy, attempt, after, 0) == 0 && RetryDelay(policy, attempt, after, 1) == 1
  {
    SmallRemainder(0, Ceiling(policy, attempt) + 1);
    SmallRemainder(1, Ceiling(policy, attempt) + 1);
  }

  lemma SmallRemainder(x: nat, n: nat)
    requires x < n
    ensures x % n == x
  {}

  lemma NegativeIsOverflow(n: int)
    requires ParseRetryAfter(Number(n)) < 0
    ensures !(-TWO_63 <= n < TWO_63) || (n > 9_223_372_036 && Wrap(n * SECOND) < 0)
  {
    SecondsAreExactUpTo(n);
  }

  /** Half a millennium requested, three tenths of a second waited. */
  lemma LongHeaderShortWait(policy: Policy, attempt: nat, jitter: nat)
    requires policy.backoffMax == DEFAULT_BACKOFF_MAX && policy.respectRetryAfter
    ensures RetryDelay(policy, attempt, RetryAfterFrom(policy, Number(18_446_744_074)), jitter) == 290_448_384
  {}

  // --------------------------------------------------------------- the loop

  /** What happens to one request: no response (`cancelled` if the caller gave up), a body that cannot be
      read, or a response. */
  datatype Reply = Broken(cancelled: bool) | Unreadable | Response(status: int, retryAfter: Header, decodes: bool)

  /** One round: the reply, the random number, and whether a wait ran to its end. */
  datatype Round = Round(reply: Reply, jitter: nat, slept: bool)

  datatype Result = Done | ConnectionError | ApiError(status: int) | DecodeError

  /** The error or value with which a reply ends the loop. */
  function Verdict(reply: Reply): Result {
    match reply
    case Broken(_) => ConnectionError
    case Unreadable => ConnectionError
    case Response(status, _, decodes) =>
      if status >= 400 then ApiError(status) else if decodes then Done else DecodeError
  }

  /** The wait after this round, if it is to be repeated. */
  function WaitAfter(policy: Option<Policy>, verb: string, attempt: nat, round: Round): Option<int>
    requires policy.Some? ==> policy.value.backoffMax > 0
  {
    match round.reply
    case Broken(cancelled) =>
      if !cancelled && ShouldRetry(policy, verb, attempt, 0) then
        Some(RetryDelay(policy.value, attempt, -1, round.jitter))
      else None
    case Unreadable => None
    case Response(status, header, _) =>
      if status >= 400 && ShouldRetry(policy, verb, attempt, status) then
        Some(RetryDelay(policy.value, attempt, RetryAfterFrom(policy.value, header), round.jitter))
      else None
  }

  /** Which rounds are followed by a wait: a retry is left, the method may be repeated, and no response arrived
      although the caller still waits for one, or one with a retriable error status. */
  lemma WaitsExactlyIf(p: Policy, verb: string, attempt: nat, round: Round)
    requires p.backoffMax > 0
    ensures WaitAfter(Some(p), verb, attempt, round).Some? <==>
      && attempt < p.maxRetries && ToUpper(verb) in p.methods
      && match round.reply
         case Broken(cancelled) => !cancelled
         case Unreadable => false
         case Response(status, _, _) => status >= 400 && status in p.statuses
    ensures WaitAfter(None, verb, attempt, round).None?
  {}

  /** How long: after a retriable error response whose header is respected, as long as it asks for, up to the
      maximum; otherwise no longer than the backoff of the attempt. */
  lemma WaitsHowLong(p: Policy, verb: string, attempt: nat, round: Round)
    requires p.backoffMax > 0 && WaitAfter(Some(p), verb, attempt, round).Some?
    ensures var wait := WaitAfter(Some(p), verb, attempt, round).value;
      match round.reply
      case Response(_, Number(n), _) =>
        p.respectRetryAfter && 0 <= n <= 9_223_372_036 ==> wait == Capped(n * SECOND, p.backoffMax)
      case Response(_, Date(ahead), _) =>
        p.respectRetryAfter ==> wait == Capped(if ahead > 0 then ahead else 0, p.backoffMax)
      case Response(_, _, _) => 0 <= wait <= Ceiling(p, attempt)
      case _ => 0 <= wait <= Ceiling(p, attempt)
    ensures !p.respectRetryAfter ==>
      0 <= WaitAfter(Some(p), verb, attempt, round).value <= Ceiling(p, attempt)
  {
    if round.reply.Response? && round.reply.retryAfter.Number? {
      SecondsAreExactUpTo(round.reply.retryAfter.n);
    }
  }

  ghost predicate Continues(policy: Option<Policy>, verb: string, attempt: nat, round: Round)
    requires policy.Some? ==> policy.value.backoffMax > 0
  {
    WaitAfter(policy, verb, attempt, round).Some? && round.slept
  }

  function Sum(waits: seq<int>): int {
    if waits == [] then 0 else Sum(waits[..|waits| - 1]) + waits[|waits| - 1]
  }

  function Retries(policy: Option<Policy>): nat {
    if policy.Some? && policy.value.maxRetries > 0 then policy.value.maxRetries else 0
  }

  /** `doJSON`, against any sequence of rounds. The request is repeated exactly as long as the replies
      allow it and the waits complete, and the last reply decides the result. */
  method DoJson(policy: Option<Policy>, verb: string, rounds: nat -> Round)
    returns (result: Result, requests: nat, waits: seq<int>)
    requires policy.Some? ==> policy.value.backoffMax > 0
    ensures 1 <= requests <= Retries(policy) + 1
    ensures forall i | 0 <= i < requests - 1 :: Continues(policy, verb, i, rounds(i))
    ensures !Continues(policy, verb, requests - 1, rounds(requests - 1))
    ensures result == Verdict(rounds(requests - 1).reply)
    ensures requests - 1 <= |waits| <= requests && |waits| <= Retries(policy)
    ensures forall i | 0 <= i < |waits| :: WaitAfter(policy, verb, i, rounds(i)) == Some(waits[i])
    ensures |waits| == requests <==> WaitAfter(policy, verb, requests - 1, rounds(requests - 1)).Some?
  {
    var attempt := 0;
    waits := [];
    while true
      invariant |waits| == attempt <= Retries(policy)
      invariant forall i | 0 <= i < attempt :: Continues(policy, verb, i, rounds(i))
      invariant forall i | 0 <= i < attempt :: WaitAfter(policy, verb, i, rounds(i)) == Some(waits[i])
      decreases Retries(policy) - attempt
    {
      var round := rounds(attempt);
      requests := attempt + 1;
      if round.reply.Broken? {
        if !round.reply.cancelled && ShouldRetry(policy, verb, attempt, 0) {
          waits := waits + [RetryDelay(policy.value, attempt, -1, round.jitter)];
          if round.slept {
            attempt := attempt + 1;
            continue;
          }
        }
        return ConnectionError, requests, waits;
      }
      if round.reply.Unreadable? {
        return ConnectionError, requests, waits;
      }
      var status := round.reply.status;
      if status >= 400 {
        if ShouldRetry(policy, verb, attempt, status) {
          var delay := RetryDelay(policy.value, attempt, RetryAfterFrom(policy.value, round.reply.retryAfter),
                                  round.jitter);
          waits := waits + [delay];
          if round.slept {
            attempt := attempt + 1;
            continue;
          }
        }
        return ApiError(status), requests, waits;
      }
      return if round.reply.decodes then Done else DecodeError, requests, waits;
    }
  }

  /** All waiting together is bounded: every wait lies in [0, BackoffMax], so their sum is at most
      MaxRetries times BackoffMax, for every sequence of replies. */
  lemma TotalWaitIsBounded(cfg: RetryConfig, verb: string, rounds: nat -> Round, waits: seq<int>)
    requires var policy := Some(WithRetry(cfg));
      && |waits| <= Retries(policy)
      && forall i | 0 <= i < |waits| :: WaitAfter(policy, verb, i, rounds(i)) == Some(waits[i])
    ensures var p := WithRetry(cfg);
      && (forall i | 0 <= i < |waits| :: 0 <= waits[i] <= p.backoffMax)
      && 0 <= Sum(waits) <= Retries(Some(p)) * p.backoffMax
  {
    var p := WithRetry(cfg);
    forall i | 0 <= i < |waits| ensures 0 <= waits[i] <= p.backoffMax {
      WaitInRange(p, verb, i, rounds(i));
    }
    SumBounded(waits, p.backoffMax);
    ProductGrows(|waits|, Retries(Some(p)), p.backoffMax);
  }

  lemma WaitInRange(p: Policy, verb: string, attempt: nat, round: Round)
    requires p.backoffMax > 0
    ensures var wait := WaitAfter(Some(p), verb, attempt, round);
      wait.Some? ==> 0 <= wait.value <= p.backoffMax
  {}

  lemma ProductGrows(a: nat, b: nat, x: nat)
    requires a <= b
    ensures a * x <= b * x
  {}

  lemma {:induction false} SumBounded(waits: seq<int>, max: int)
    requires max >= 0 && forall i | 0 <= i < |waits| :: 0 <= waits[i] <= max
    ensures 0 <= Sum(waits) <= |waits| * max
  {
    if waits != [] {
      SumBounded(waits[..|waits| - 1], max);
    }
  }

  /** A request is ever repeated exactly if retries are configured and its method, in capitals, is in the
      configured set. */
  lemma RepeatedExactlyIf(cfg: RetryConfig, verb: string)
    ensures var policy := Some(WithRetry(cfg));
      (exists round :: Continues(policy, verb, 0, round))
      <==> cfg.maxRetries > 0 && ToUpper(verb) in WithRetry(cfg).methods
  {
    var policy := Some(WithRetry(cfg));
    if cfg.maxRetries > 0 && ToUpper(verb) in WithRetry(cfg).methods {
      assert Continues(policy, verb, 0, Round(Broken(false), 0, true));
    }
  }

  /** The letters P, O, S, T, each small or capital. */
  predicate IsPost(verb: string) {
    && |verb| == 4 && (verb[0] == 'P' || verb[0] == 'p') && (verb[1] == 'O' || verb[1] == 'o')
    && (verb[2] == 'S' || verb[2] == 's') && (verb[3] == 'T' || verb[3] == 't')
  }

  lemma PostInCapitals(verb: string)
    ensures ToUpper(verb) == "POST" <==> IsPost(verb)
  {
    var upper := ToUpper(verb);
    if IsPost(verb) {
      assert upper[0] == 'P' && upper[1] == 'O' && upper[2] == 'S' && upper[3] == 'T';
      assert upper == "POST";
    }
    if upper == "POST" {
      assert upper[0] == 'P' && upper[1] == 'O' && upper[2] == 'S' && upper[3] == 'T';
    }
  }

  /** With the default methods a POST, however it is spelled, is sent exactly once. */
  lemma PostIsNotRepeated(cfg: RetryConfig, verb: string, round: Round, attempt: nat)
    requires cfg.methods == None && IsPost(verb)
    ensures WaitAfter(Some(WithRetry(cfg)), verb, attempt, round) == None
  {
    PostInCapitals(verb);
    assert "POST" !in IDEMPOTENT_METHODS by {
      assert "POST"[0] == 'P' && "GET"[0] == 'G' && "HEAD"[0] == 'H' && "DELETE"[0] == 'D' && "OPTIONS"[0] == 'O';
      assert |"PUT"| == 3 && |"POST"| == 4;
    }
  }

  /** ... but the caller may configure otherwise: with POST among the methods it is repeated. */
  lemma PostCanBeConfigured(cfg: RetryConfig)
    requires cfg.maxRetries > 0 && cfg.methods == Some({"POST"})
    ensures Continues(Some(WithRetry(cfg)), "POST", 0, Round(Broken(false), 0, true))
  {
    assert ToUpper("POST") == "POST";
  }

  /** A whole call: at most MaxRetries + 1 requests, waits in range, and a POST exactly once unless the
      caller configured the methods. */
  method Call(cfg: RetryConfig, verb: string, rounds: nat -> Round)
    returns (result: Result, requests: nat, waits: seq<int>)
    ensures 1 <= requests <= (if cfg.maxRetries > 0 then cfg.maxRetries else 0) + 1
    ensures forall i | 0 <= i < |waits| :: 0 <= waits[i] <= WithRetry(cfg).backoffMax
    ensures 0 <= Sum(waits) <= (if cfg.maxRetries > 0 then cfg.maxRetries else 0) * WithRetry(cfg).backoffMax
    ensures cfg.methods == None && IsPost(verb) ==> requests == 1 && waits == []
    ensures match rounds(requests - 1).reply
      case Response(status, _, decodes) =>
        result == if status >= 400 then ApiError(status) else if decodes then Done else DecodeError
      case _ => result == ConnectionError
  {
    var policy := Some(WithRetry(cfg));
    result, requests, waits := DoJson(policy, verb, rounds);
    TotalWaitIsBounded(cfg, verb, rounds, waits);
    if cfg.methods == None && IsPost(verb) {
      PostIsNotRepeated(cfg, verb, rounds(0), 0);
    }
  }
}
