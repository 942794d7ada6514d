/**
 * GitHub's rate-limit headers and the waiting they imply: reading the four
 * `x-ratelimit-*` headers, the seconds left until the quota resets, and the delay the
 * client waits before retrying (the reset wait when the quota is spent, otherwise
 * exponential backoff with jitter). Times are seconds since the epoch, as reals.
 */
module RateLimit {
  import opened Text
  import opened Wrappers

  const MaxRetries: nat := 3
  const BaseDelay: real := 1.0
  const MaxDelay: real := 30.0
  const JitterFactor: real := 0.25

  /** A draw of `random.random()`: a real in [0, 1). */
  type Unit = r: real | 0.0 <= r < 1.0

  /** Response headers by lower-case name (header names are case-insensitive). */
  type Headers = map<string, string>

  datatype RateLimitInfo = RateLimitInfo(limit: int, remaining: int, resetAt: real, used: int)

  predicate IsDigit(c: char) { '0' <= c <= '9' }

  function DigitValue(c: char): nat
    requires IsDigit(c)
  {
    c as int - '0' as int
  }

  predicate AllDigits(s: string) {
    forall i :: 0 <= i < |s| ==> IsDigit(s[i])
  }

  /** The number a string of decimal digits denotes, most significant digit first. */
  function DecimalValue(ds: string): nat
    requires AllDigits(ds)
  {
    if ds == [] then 0 else DecimalValue(ds[..|ds| - 1]) * 10 + DigitValue(ds[|ds| - 1])
  }

  /** Digits with single underscores between them, as Python's integer literals allow (`1_000`). */
  predicate DigitGroups(s: string) {
    s != [] && IsDigit(s[0]) && MoreGroups(s[1..])
  }

  /** What may follow a digit: more digits, each possibly preceded by one underscore. */
  predicate MoreGroups(s: string)
    decreases |s|
  {
    || s == []
    || (IsDigit(s[0]) && MoreGroups(s[1..]))
    || (|s| >= 2 && s[0] == '_' && IsDigit(s[1]) && MoreGroups(s[2..]))
  }

  /** The digits of a numeral, underscores dropped. */
  function DigitsOf(s: string): (r: string)
    ensures AllDigits(r)
  {
    if s == [] then []
    else if IsDigit(s[0]) then [s[0]] + DigitsOf(s[1..])
    else DigitsOf(s[1..])
  }

  /** Digit groups and the number they denote; `None` when the text is not digit groups. */
  function ParseDigits(body: string): (r: Option<nat>)
    ensures r.Some? <==> DigitGroups(body)
  {
    if DigitGroups(body) then Some(DecimalValue(DigitsOf(body))) else None
  }

  /** A numeral with its optional sign. */
  function ParseSigned(t: string): Option<int>
    requires t != []
  {
    if t[0] == '-' then
      match ParseDigits(t[1..])
      case Some(n) => Some(-(n as int))
      case None => None
    else if t[0] == '+' then
      match ParseDigits(t[1..])
      case Some(n) => Some(n as int)
      case None => None
    else
      match ParseDigits(t)
      case Some(n) => Some(n as int)
      case None => None
  }

  /**
   * `int(s)` for a string: surrounding white space is ignored, an optional sign is
   * followed by digit groups; anything else raises ValueError (here `None`).
   */
  function ParseInt(s: string): (r: Option<int>)
    ensures Strip(s) == [] ==> r.None?
  {
    var t := Strip(s);
    if t == [] then None else ParseSigned(t)
  }

  /** `str(n)` for a natural number. */
  function NatDecimal(n: nat): (r: string)
    ensures r != [] && AllDigits(r)
  {
    if n < 10 then [('0' as int + n) as char]
    else NatDecimal(n / 10) + [('0' as int + n % 10) as char]
  }

  /** `str(n)` */
  function Decimal(n: int): string {
    if n < 0 then "-" + NatDecimal(-n) else NatDecimal(n)
  }

  lemma {:induction false} NatDecimalValue(n: nat)
    ensures DecimalValue(NatDecimal(n)) == n
  {
    if n >= 10 {
      NatDecimalValue(n / 10);
      var d := NatDecimal(n);
      assert d[..|d| - 1] == NatDecimal(n / 10);
    }
  }

  lemma {:induction false} DigitsOfDigits(s: string)
    requires AllDigits(s)
    ensures DigitsOf(s) == s
  {
    if s != [] {
      DigitsOfDigits(s[1..]);
    }
  }

  /** `int(str(n)) == n`: parsing undoes printing. */
  lemma ParseIntOfDecimal(n: int)
    ensures ParseInt(Decimal(n)) == Some(n)
  {
    var s := Decimal(n);
    DecimalStripped(n);
    StripStripped(s);
    if n < 0 {
      NatDecimalParses(-n);
      assert s[1..] == NatDecimal(-n);
    } else {
      NatDecimalParses(n);
      assert s[0] != '-' && s[0] != '+';
    }
  }

  lemma NatDecimalParses(n: nat)
    ensures ParseDigits(NatDecimal(n)) == Some(n)
  {
    var d := NatDecimal(n);
    NatDecimalValue(n);
    DigitsOfDigits(d);
    DigitsAreGroups(d);
  }

  lemma DigitsAreGroups(d: string)
    requires d != [] && AllDigits(d)
    ensures DigitGroups(d)
  {
    DigitsAreMoreGroups(d[1..]);
  }

  lemma {:induction false} DigitsAreMoreGroups(d: string)
    requires AllDigits(d)
    ensures MoreGroups(d)
  {
    if d != [] {
      DigitsAreMoreGroups(d[1..]);
    }
  }

  lemma DecimalStripped(n: int)
    ensures IsStripped(Decimal(n))
  {
    var s := Decimal(n);
    assert !IsSpace(s[0]) && !IsSpace(s[|s| - 1]);
  }

  /** `int(headers.get(name, 0))`: an absent header counts as 0. */
  function HeaderInt(h: Headers, name: string): Option<int> {
    if name in h then ParseInt(h[name]) else Some(0)
  }

  /** The first and the last second `datetime.fromtimestamp` accepts (years 1 to 9999, UTC). */
  const MinTimestamp: int := -62135596800
  const MaxTimestamp: int := 253402300799

  /**
   * `RateLimitInfo.from_headers` at time `now`: absent headers count as 0, a reset
   * timestamp of 0 means "now", and a value that is not an integer (or a reset time
   * outside the years `datetime` can hold) makes the whole reading `None`.
   */
  function FromHeaders(h: Headers, now: real): (r: Option<RateLimitInfo>)
    ensures r.Some? <==>
      && HeaderInt(h, "x-ratelimit-limit").Some?
      && HeaderInt(h, "x-ratelimit-remaining").Some?
      && HeaderInt(h, "x-ratelimit-reset").Some?
      && HeaderInt(h, "x-ratelimit-used").Some?
      && MinTimestamp <= HeaderInt(h, "x-ratelimit-reset").value <= MaxTimestamp
    ensures r.Some? && HeaderInt(h, "x-ratelimit-reset") == Some(0) ==> r.value.resetAt == now
  {
    match (HeaderInt(h, "x-ratelimit-limit"), HeaderInt(h, "x-ratelimit-remaining"),
           HeaderInt(h, "x-ratelimit-reset"), HeaderInt(h, "x-ratelimit-used"))
    case (Some(limit), Some(remaining), Some(ts), Some(used)) =>
      if MinTimestamp <= ts <= MaxTimestamp then
        Some(RateLimitInfo(limit, remaining, if ts != 0 then ts as real else now, used))
      else None
    case _ => None
  }

  /** The headers GitHub sends for a reading. */
  function ToHeaders(limit: int, remaining: int, reset: int, used: int): Headers {
    map["x-ratelimit-limit" := Decimal(limit), "x-ratelimit-remaining" := Decimal(remaining),
        "x-ratelimit-reset" := Decimal(reset), "x-ratelimit-used" := Decimal(used)]
  }

  /** Reading the headers gives back the numbers they were written from. */
  lemma FromHeadersOfToHeaders(limit: int, remaining: int, reset: int, used: int, now: real)
    requires MinTimestamp <= reset <= MaxTimestamp && reset != 0
    ensures FromHeaders(ToHeaders(limit, remaining, reset, used), now)
         == Some(RateLimitInfo(limit, remaining, reset as real, used))
  {
    var h := ToHeaders(limit, remaining, reset, used);
    HeaderIntOfDecimal(h, "x-ratelimit-limit", limit);
    HeaderIntOfDecimal(h, "x-ratelimit-remaining", remaining);
    HeaderIntOfDecimal(h, "x-ratelimit-reset", reset);
    HeaderIntOfDecimal(h, "x-ratelimit-used", used);
  }

  lemma HeaderIntOfDecimal(h: Headers, name: string, v: int)
    requires name in h && h[name] == Decimal(v)
    ensures HeaderInt(h, name) == Some(v)
  {
    ParseIntOfDecimal(v);
  }

  /**
   * A response without rate-limit headers still gives a reading, not `None`: all zeros,
   * resetting now, so it reads as a spent quota with nothing left to wait for.
   */
  lemma FromHeadersWithoutHeaders(now: real, later: real)
    requires now <= later
    ensures FromHeaders(map[], now) == Some(RateLimitInfo(0, 0, now, 0))
    ensures WaitSeconds(FromHeaders(map[], now).value, later) == 0.0
  {
  }

  /** `wait_seconds()` at time `now`: a second more than what is left until the reset. */
  function WaitSeconds(info: RateLimitInfo, now: real): (r: real)
    ensures r >= 0.0
    ensures r == 0.0 <==> info.resetAt <= now
    ensures r > 0.0 ==> now + r == info.resetAt + 1.0
  {
    if info.resetAt > now then info.resetAt - now + 1.0 else 0.0
  }

  /** Waiting the time it names always takes the clock past the reset, and the wait only shrinks. */
  lemma WaitSecondsPassesReset(info: RateLimitInfo, now: real, later: real)
    requires now <= later
    ensures info.resetAt < now + WaitSeconds(info, now) || info.resetAt <= now
    ensures WaitSeconds(info, later) <= WaitSeconds(info, now)
  {
  }

  function Pow2(n: nat): (r: nat)
    ensures r >= 1
  {
    if n == 0 then 1 else 2 * Pow2(n - 1)
  }

  function Min(a: real, b: real): real {
    if a <= b then a else b
  }

  /** `min(BASE_DELAY * 2 ** attempt, MAX_DELAY)` */
  function Backoff(attempt: nat): real {
    Min(BaseDelay * Pow2(attempt) as real, MaxDelay)
  }

  /** The quota is spent: the reading exists and says nothing remains. */
  predicate Exhausted(rl: Option<RateLimitInfo>) {
    rl.Some? && rl.value.remaining == 0
  }

  /**
   * `_calculate_delay(attempt, rate_limit)` at time `now`, with `r` the jitter draw: with
   * the quota spent, the wait for the reset capped at 30 s; otherwise the backoff for
   * this attempt plus up to a quarter more.
   */
  function CalculateDelay(attempt: nat, rl: Option<RateLimitInfo>, now: real, r: Unit): (d: real)
    ensures 0.0 <= d < MaxDelay * (1.0 + JitterFactor)
    ensures Exhausted(rl) ==> d == Min(WaitSeconds(rl.value, now), MaxDelay)
    ensures !Exhausted(rl) ==> Backoff(attempt) <= d < Backoff(attempt) * (1.0 + JitterFactor)
  {
    if Exhausted(rl) then
      var wait := WaitSeconds(rl.value, now);
      if wait > MaxDelay then MaxDelay else wait
    else
      BackoffRange(attempt);
      Jittered(Backoff(attempt), r)
  }

  /** `base + base * JITTER_FACTOR * random.random()` */
  function Jittered(base: real, r: Unit): (d: real)
    requires 0.0 < base <= MaxDelay
    ensures base <= d < base * (1.0 + JitterFactor)
    ensures d < MaxDelay * (1.0 + JitterFactor)
  {
    var d := base + base * JitterFactor * r;
    JitterBound(base, r, d);
    d
  }

  lemma JitterBound(base: real, r: Unit, d: real)
    requires 0.0 < base <= MaxDelay && d == base + base * JitterFactor * r
    ensures base <= d < base * (1.0 + JitterFactor)
    ensures d < MaxDelay * (1.0 + JitterFactor)
  {
    assert base * r < base * 1.0;
    assert base * JitterFactor * r == 0.25 * (base * r);
  }

  lemma BackoffRange(attempt: nat)
    ensures 1.0 <= Backoff(attempt) <= MaxDelay
  {
  }

  /** The backoff doubles from 1 s with each attempt (1, 2, 4, 8, 16) and stays at the 30 s cap from attempt 5 on. */
  lemma BackoffGrowth(attempt: nat)
    ensures attempt < 5 ==> Backoff(attempt) == Pow2(attempt) as real
    ensures attempt < 4 ==> Backoff(attempt + 1) == 2.0 * Backoff(attempt)
    ensures attempt >= 5 ==> Backoff(attempt) == MaxDelay
    ensures Backoff(attempt) <= Backoff(attempt + 1)
  {
    if attempt >= 5 {
      Pow2AtLeast(attempt);
      Pow2AtLeast(attempt + 1);
    } else {
      Pow2Small(attempt);
      assert Pow2(attempt + 1) == 2 * Pow2(attempt);
      if attempt == 4 {
        assert Pow2(5) == 32;
      }
    }
  }

  lemma {:induction false} Pow2AtLeast(n: nat)
    requires n >= 5
    ensures Pow2(n) >= 32
  {
    if n > 5 {
      Pow2AtLeast(n - 1);
    } else {
      assert Pow2(5) == 2 * Pow2(4) == 4 * Pow2(3) == 8 * Pow2(2) == 16 * Pow2(1) == 32;
    }
  }

  lemma Pow2Small(n: nat)
    requires n < 5
    ensures Pow2(n + 1) <= 32 && Pow2(n) <= 16
  {
    assert Pow2(1) == 2 && Pow2(2) == 4 && Pow2(3) == 8 && Pow2(4) == 16 && Pow2(5) == 32;
  }
}
