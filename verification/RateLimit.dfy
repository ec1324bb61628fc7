/**
 The per-caller token bucket (internal/kernel/ratelimit/ratelimit.go) and the Retry-After header
 made from its answer (internal/kernel/httpx/middleware.go).

 Times are nanoseconds and tokens are held in billionths, so that refilling, elapsed nanoseconds
 times tokens per second, is exact.

 The table of buckets is described over any charging rule; the arithmetic of the token bucket is
 one such rule, `Tokens`, and is needed only where a claim is about amounts.
 */
module RateLimit {
  import opened Basics

  const SECOND := 1_000_000_000
  const ONE := 1_000_000_000
  const IDLE := 300 * SECOND
  const MAX_TRACKED := 4096

  datatype Rate = Rate(perSecond: int, burst: int)

  type Limits = l: Rate | l.perSecond > 0 && l.burst > 0 witness Rate(1, 1)

  datatype Bucket = Bucket(tokens: int, seenAt: int)

  datatype Answer = Answer(allowed: bool, wait: int)

  datatype State = State(buckets: map<string, Bucket>, shared: Bucket, sweptAt: int, overflow: bool)

  /** How a bucket starts, and what one call does to it. */
  datatype Rules = Rules(open: int -> Bucket, charge: (Bucket, int) -> (Bucket, Answer))

  // ----- the token bucket -----

  function Full(l: Limits): int {
    l.burst * ONE
  }

  /** What a bucket holds at `now`. */
  function Available(l: Limits, b: Bucket, now: int): int {
    Min(Full(l), b.tokens + (now - b.seenAt) * l.perSecond)
  }

  function Charge(l: Limits, b: Bucket, now: int): (Bucket, Answer) {
    var held := Available(l, b, now);
    if held < ONE then (Bucket(held, now), Answer(false, (ONE - held) / l.perSecond + SECOND))
    else (Bucket(held - ONE, now), Answer(true, 0))
  }

  function Tokens(l: Limits): Rules {
    Rules(now => Bucket(Full(l), now), (b, now) => Charge(l, b, now))
  }

  // ----- the table -----

  function Fresh(r: Rules, start: int): State {
    State(map[], r.open(start), start, false)
  }

  /** `New`: no limiter at all without a rate; a missing burst is one second's worth. */
  function New(perSecond: int, burst: int): (r: Option<Limits>)
    ensures r.Some? <==> perSecond > 0
    ensures r.Some? ==> r.value.perSecond == perSecond
    ensures r.Some? && burst > 0 ==> r.value.burst == burst
    ensures r.Some? && burst <= 0 ==> r.value.burst == perSecond
  {
    if perSecond <= 0 then None
    else Some(Rate(perSecond, if burst <= 0 then perSecond else burst))
  }

  predicate Forgotten(b: Bucket, now: int) {
    now - b.seenAt >= IDLE
  }

  function Swept(s: State, now: int): State {
    if now - s.sweptAt < IDLE then s
    else
      var kept := map k | k in s.buckets && !Forgotten(s.buckets[k], now) :: s.buckets[k];
      s.(buckets := kept, sweptAt := now, overflow := s.overflow && |kept| >= MAX_TRACKED)
  }

  /** Does this call charge the caller's own bucket, or the one all late comers share? */
  predicate Own(s: State, key: string, now: int) {
    var kept := Swept(s, now).buckets;
    key in kept || |kept| < MAX_TRACKED
  }

  function OwnBucket(r: Rules, s: State, key: string, now: int): Bucket {
    var kept := Swept(s, now).buckets;
    if key in kept then kept[key] else r.open(now)
  }

  function Allow(r: Rules, s: State, key: string, now: int): (State, Answer) {
    var swept := Swept(s, now);
    if Own(s, key, now) then
      var (b, answer) := r.charge(OwnBucket(r, s, key, now), now);
      (swept.(buckets := swept.buckets[key := b]), answer)
    else
      var (b, answer) := r.charge(swept.shared, now);
      (swept.(shared := b, overflow := true), answer)
  }

  // ----- runs -----

  datatype Call = Call(key: string, now: int)

  /** The clock never goes back. */
  ghost predicate InOrder(calls: seq<Call>, from: int) {
    && (forall i | 0 <= i < |calls| :: from <= calls[i].now)
    && (forall i, j | 0 <= i <= j < |calls| :: calls[i].now <= calls[j].now)
  }

  /** The state after the first `k` calls. */
  function At(r: Rules, s: State, calls: seq<Call>, k: nat): State
    requires k <= |calls|
  {
    if k == 0 then s
    else Allow(r, At(r, s, calls, k - 1), calls[k - 1].key, calls[k - 1].now).0
  }

  function AnswerAt(r: Rules, s: State, calls: seq<Call>, k: nat): Answer
    requires k < |calls|
  {
    Allow(r, At(r, s, calls, k), calls[k].key, calls[k].now).1
  }

  // ----- what always holds -----

  ghost predicate ValidBucket(l: Limits, b: Bucket, now: int) {
    0 <= b.tokens <= Full(l) && b.seenAt <= now
  }

  ghost predicate Valid(l: Limits, s: State, now: int) {
    && (forall k | k in s.buckets :: ValidBucket(l, s.buckets[k], now))
    && ValidBucket(l, s.shared, now)
    && s.sweptAt <= now
    && |s.buckets| <= MAX_TRACKED
  }

  /** The charging rule keeps tokens between nothing and the burst. */
  ghost predicate Bounded(r: Rules, l: Limits) {
    && (forall now :: ValidBucket(l, r.open(now), now))
    && forall b: Bucket, now {:trigger r.charge(b, now)} | ValidBucket(l, b, now) ::
      ValidBucket(l, r.charge(b, now).0, now)
  }

  lemma TokensAreBounded(l: Limits)
    ensures Bounded(Tokens(l), l)
  {
    forall b: Bucket, now | ValidBucket(l, b, now) ensures ValidBucket(l, Charge(l, b, now).0, now) {
      NothingNegative(l, b, now);
    }
  }

  lemma NothingNegative(l: Limits, b: Bucket, now: int)
    requires ValidBucket(l, b, now)
    ensures 0 <= Available(l, b, now)
  {
    assert (now - b.seenAt) * l.perSecond >= 0;
  }

  lemma AllowKeepsValid(r: Rules, l: Limits, s: State, key: string, now: int)
    requires Bounded(r, l) && Valid(l, s, now)
    ensures Valid(l, Allow(r, s, key, now).0, now)
  {
    var swept, next := Swept(s, now), Allow(r, s, key, now).0;
    Fewer(swept.buckets.Keys, s.buckets.Keys);
    assert |swept.buckets| == |swept.buckets.Keys| && |s.buckets| == |s.buckets.Keys|;
    if Own(s, key, now) {
      assert next.buckets.Keys == swept.buckets.Keys + {key};
      assert |next.buckets| == |next.buckets.Keys|;
    }
  }

  lemma {:induction false} RunKeepsValid(r: Rules, l: Limits, s: State, calls: seq<Call>, from: int, k: nat, now: int)
    requires Bounded(r, l) && Valid(l, s, from) && InOrder(calls, from) && k <= |calls|
    requires from <= now && (k > 0 ==> calls[k - 1].now <= now)
    ensures Valid(l, At(r, s, calls, k), now)
  {
    if k > 0 {
      RunKeepsValid(r, l, s, calls, from, k - 1, calls[k - 1].now);
      AllowKeepsValid(r, l, At(r, s, calls, k - 1), calls[k - 1].key, calls[k - 1].now);
    }
  }

  /** Tokens stay between nothing and the burst, and at most 4096 callers are ever tracked. */
  lemma AlwaysBounded(l: Limits, start: int, calls: seq<Call>, k: nat, now: int)
    requires InOrder(calls, start) && k <= |calls|
    requires start <= now && (k > 0 ==> calls[k - 1].now <= now)
    ensures Valid(l, At(Tokens(l), Fresh(Tokens(l), start), calls, k), now)
  {
    TokensAreBounded(l);
    RunKeepsValid(Tokens(l), l, Fresh(Tokens(l), start), calls, start, k, now);
  }

  // ----- a limiter that never forgets -----

  function AllowForever(r: Rules, u: map<string, Bucket>, key: string, now: int): (map<string, Bucket>, Answer) {
    var (b, answer) := r.charge(if key in u then u[key] else r.open(now), now);
    (u[key := b], answer)
  }

  function ForeverAt(r: Rules, calls: seq<Call>, k: nat): map<string, Bucket>
    requires k <= |calls|
  {
    if k == 0 then map[]
    else AllowForever(r, ForeverAt(r, calls, k - 1), calls[k - 1].key, calls[k - 1].now).0
  }

  function ForeverAnswer(r: Rules, calls: seq<Call>, k: nat): Answer
    requires k < |calls|
  {
    AllowForever(r, ForeverAt(r, calls, k), calls[k].key, calls[k].now).1
  }

  ghost predicate OwnAt(r: Rules, start: int, calls: seq<Call>, k: nat) {
    k < |calls| ==> Own(At(r, Fresh(r, start), calls, k), calls[k].key, calls[k].now)
  }

  ghost predicate NoOverflow(r: Rules, start: int, calls: seq<Call>) {
    forall k: nat :: OwnAt(r, start, calls, k)
  }

  ghost predicate SameAnswer(r: Rules, start: int, calls: seq<Call>, k: nat) {
    k < |calls| ==> AnswerAt(r, Fresh(r, start), calls, k) == ForeverAnswer(r, calls, k)
  }

  ghost predicate SameAnswers(r: Rules, start: int, calls: seq<Call>) {
    forall k: nat :: SameAnswer(r, start, calls, k)
  }

  /** A bucket idle for long enough charges like a new one. */
  ghost predicate IdleIsNew(r: Rules) {
    forall b: Bucket, now {:trigger r.charge(b, now)} | b.tokens >= 0 && Forgotten(b, now) ::
      r.charge(b, now) == r.charge(r.open(now), now)
  }

  /** The buckets agree, except that the limiter may have forgotten some that were idle. */
  ghost predicate Mirrors(s: State, u: map<string, Bucket>, now: int) {
    && s.buckets.Keys <= u.Keys
    && forall k | k in u ::
         if k in s.buckets then u[k] == s.buckets[k] else u[k].tokens >= 0 && Forgotten(u[k], now)
  }

  lemma OneCallMirrors(r: Rules, l: Limits, s: State, u: map<string, Bucket>, key: string, now: int)
    requires IdleIsNew(r) && Valid(l, s, now) && Mirrors(s, u, now) && Own(s, key, now)
    ensures Allow(r, s, key, now).1 == AllowForever(r, u, key, now).1
    ensures Mirrors(Allow(r, s, key, now).0, AllowForever(r, u, key, now).0, now)
  {
  }

  lemma {:induction false} RunMirrors(r: Rules, l: Limits, start: int, calls: seq<Call>, k: nat)
    requires Bounded(r, l) && IdleIsNew(r) && InOrder(calls, start) && NoOverflow(r, start, calls)
    requires k <= |calls|
    ensures
      var now := if k == 0 then start else calls[k - 1].now;
      Mirrors(At(r, Fresh(r, start), calls, k), ForeverAt(r, calls, k), now)
    ensures k > 0 ==> SameAnswer(r, start, calls, k - 1)
  {
    if k > 0 {
      assert OwnAt(r, start, calls, k - 1);
      RunMirrors(r, l, start, calls, k - 1);
      RunKeepsValid(r, l, Fresh(r, start), calls, start, k - 1, calls[k - 1].now);
      OneCallMirrors(r, l, At(r, Fresh(r, start), calls, k - 1), ForeverAt(r, calls, k - 1),
                     calls[k - 1].key, calls[k - 1].now);
    }
  }

  // ----- the condition under which forgetting does no harm -----

  /** An idle bucket has refilled completely by the time it is forgotten. */
  ghost predicate RefillsWhileIdle(l: Limits) {
    l.burst <= 300 * l.perSecond
  }

  lemma IdleIsFull(l: Limits, b: Bucket, now: int)
    requires RefillsWhileIdle(l) && 0 <= b.tokens && Forgotten(b, now)
    ensures Available(l, b, now) == Full(l)
  {
    MulMonotone(IDLE, now - b.seenAt, l.perSecond);
  }

  lemma MulMonotone(a: int, b: int, c: int)
    requires a <= b && c >= 0
    ensures a * c <= b * c
  {
  }

  lemma RefilledIsNew(l: Limits)
    requires RefillsWhileIdle(l)
    ensures IdleIsNew(Tokens(l))
  {
    forall b: Bucket, now | b.tokens >= 0 && Forgotten(b, now)
      ensures Charge(l, b, now) == Charge(l, Bucket(Full(l), now), now)
    {
      IdleIsFull(l, b, now);
    }
  }

  // ----- the run that shows the condition is needed -----

  /** One caller: a whole burst at once, and another the moment it is forgotten. */
  function TwoBursts(l: Limits): seq<Call> {
    seq(2 * l.burst, i => Call("a", if i < l.burst then 0 else IDLE))
  }

  /** Within one instant a bucket just counts down. */
  ghost predicate CountsDown(r: Rules, l: Limits) {
    && (forall now :: r.open(now) == Bucket(Full(l), now))
    && forall b: Bucket {:trigger r.charge(b, b.seenAt)} | ONE <= b.tokens <= Full(l) ::
         r.charge(b, b.seenAt) == (Bucket(b.tokens - ONE, b.seenAt), Answer(true, 0))
  }

  /** A spent bucket has earned less than a burst by the time it would be forgotten. */
  ghost predicate EarnsLess(r: Rules, l: Limits) {
    && r.charge(Bucket(0, 0), IDLE) == (Bucket((300 * l.perSecond - 1) * ONE, IDLE), Answer(true, 0))
    && !r.charge(Bucket(0, IDLE), IDLE).1.allowed
  }

  lemma TokensCountDown(l: Limits)
    ensures CountsDown(Tokens(l), l)
  {
    forall b: Bucket | ONE <= b.tokens <= Full(l)
      ensures Tokens(l).charge(b, b.seenAt) == (Bucket(b.tokens - ONE, b.seenAt), Answer(true, 0))
    {
      assert (b.seenAt - b.seenAt) * l.perSecond == 0;
    }
  }

  lemma TokensEarnLess(l: Limits)
    requires !RefillsWhileIdle(l)
    ensures EarnsLess(Tokens(l), l)
  {
    assert Available(l, Bucket(0, 0), IDLE) == 300 * l.perSecond * ONE;
    assert Available(l, Bucket(0, IDLE), IDLE) == 0;
  }

  /** One call of the burst, from a bucket already opened at this instant. */
  lemma NextOfBurst(r: Rules, l: Limits, s: State, b: Bucket)
    requires CountsDown(r, l) && ONE <= b.tokens <= Full(l)
    requires s.buckets == map["a" := b] && b.seenAt - s.sweptAt < IDLE
    ensures Own(s, "a", b.seenAt)
    ensures Allow(r, s, "a", b.seenAt) ==
            (s.(buckets := map["a" := Bucket(b.tokens - ONE, b.seenAt)]), Answer(true, 0))
  {
    var next := Bucket(b.tokens - ONE, b.seenAt);
    assert map["a" := b]["a" := next] == map["a" := next];
  }

  /** The first call of a burst, by a caller nobody remembers. */
  lemma FirstOfBurst(r: Rules, l: Limits, s: State, now: int)
    requires CountsDown(r, l) && Swept(s, now).buckets == map[]
    ensures Own(s, "a", now)
    ensures Allow(r, s, "a", now) ==
            (Swept(s, now).(buckets := map["a" := Bucket(Full(l) - ONE, now)]), Answer(true, 0))
  {
    var b := r.open(now);
    assert r.charge(b, b.seenAt) == (Bucket(b.tokens - ONE, b.seenAt), Answer(true, 0));
  }

  function BurstState(l: Limits, k: nat): map<string, Bucket> {
    if k == 0 then map[]
    else if k <= l.burst then map["a" := Bucket((l.burst - k) * ONE, 0)]
    else map["a" := Bucket((2 * l.burst - k) * ONE, IDLE)]
  }

  ghost predicate InBurst(l: Limits, s: State, k: nat) {
    s.buckets == BurstState(l, k) && s.sweptAt == if k <= l.burst then 0 else IDLE
  }

  lemma BurstStep(r: Rules, l: Limits, s: State, k: nat)
    requires CountsDown(r, l) && k < 2 * l.burst && InBurst(l, s, k)
    ensures
      var now := if k < l.burst then 0 else IDLE;
      && Own(s, "a", now) && Allow(r, s, "a", now).1.allowed
      && InBurst(l, Allow(r, s, "a", now).0, k + 1)
  {
    var now := if k < l.burst then 0 else IDLE;
    if k == 0 || k == l.burst {
      assert Swept(s, now).buckets == map[];
      FirstOfBurst(r, l, s, now);
    } else {
      BurstGoesOn(r, l, s, k, now);
    }
  }

  lemma BurstGoesOn(r: Rules, l: Limits, s: State, k: nat, now: int)
    requires CountsDown(r, l) && 0 < k < 2 * l.burst && k != l.burst && InBurst(l, s, k)
    requires now == if k < l.burst then 0 else IDLE
    ensures Own(s, "a", now) && Allow(r, s, "a", now).1.allowed && InBurst(l, Allow(r, s, "a", now).0, k + 1)
  {
    var left := if k < l.burst then l.burst - k else 2 * l.burst - k;
    var b := Bucket(left * ONE, now);
    assert ONE <= b.tokens <= Full(l);
    assert s.buckets == map["a" := b] && b.seenAt - s.sweptAt < IDLE;
    assert BurstState(l, k + 1) == map["a" := Bucket(b.tokens - ONE, now)];
    NextOfBurst(r, l, s, b);
    var after := s.(buckets := map["a" := Bucket(b.tokens - ONE, now)]);
    assert Allow(r, s, "a", now) == (after, Answer(true, 0));
    assert InBurst(l, after, k + 1);
  }

  lemma {:induction false} TwoBurstsForgetting(r: Rules, l: Limits, k: nat)
    requires CountsDown(r, l) && k <= 2 * l.burst
    ensures InBurst(l, At(r, Fresh(r, 0), TwoBursts(l), k), k)
  {
    if k > 0 {
      TwoBurstsForgetting(r, l, k - 1);
      BurstStep(r, l, At(r, Fresh(r, 0), TwoBursts(l), k - 1), k - 1);
    }
  }

  lemma {:induction false} TwoBurstsRemembered(r: Rules, l: Limits, k: nat)
    requires CountsDown(r, l) && EarnsLess(r, l) && !RefillsWhileIdle(l) && k <= l.burst + 300 * l.perSecond
    ensures ForeverAt(r, TwoBursts(l), k) ==
            if k == 0 then map[]
            else if k <= l.burst then map["a" := Bucket((l.burst - k) * ONE, 0)]
            else map["a" := Bucket((l.burst + 300 * l.perSecond - k) * ONE, IDLE)]
  {
    if k > 0 {
      TwoBurstsRemembered(r, l, k - 1);
    }
  }

  lemma TwoBurstsDiffer(r: Rules, l: Limits)
    requires CountsDown(r, l) && EarnsLess(r, l) && !RefillsWhileIdle(l)
    ensures InOrder(TwoBursts(l), 0) && NoOverflow(r, 0, TwoBursts(l)) && !SameAnswers(r, 0, TwoBursts(l))
  {
    var calls, odd := TwoBursts(l), l.burst + 300 * l.perSecond;
    forall k: nat ensures OwnAt(r, 0, calls, k) {
      if k < |calls| {
        TwoBurstsForgetting(r, l, k);
        BurstStep(r, l, At(r, Fresh(r, 0), calls, k), k);
      }
    }
    TwoBurstsForgetting(r, l, odd);
    BurstStep(r, l, At(r, Fresh(r, 0), calls, odd), odd);
    TwoBurstsRemembered(r, l, odd);
    assert !SameAnswer(r, 0, calls, odd);
  }

  /**
   Forgetting idle callers is invisible, answer for answer, exactly when an idle bucket refills
   within the five minutes it takes to be forgotten.
   */
  lemma ForgettingIsInvisibleIff(l: Limits)
    ensures RefillsWhileIdle(l) <==>
            forall start: int, calls: seq<Call> | InOrder(calls, start) && NoOverflow(Tokens(l), start, calls) ::
              SameAnswers(Tokens(l), start, calls)
  {
    TokensCountDown(l);
    if RefillsWhileIdle(l) {
      RefilledIsNew(l);
      TokensAreBounded(l);
      forall start: int, calls: seq<Call> | InOrder(calls, start) && NoOverflow(Tokens(l), start, calls)
        ensures SameAnswers(Tokens(l), start, calls)
      {
        SameThroughout(Tokens(l), l, start, calls);
      }
    } else {
      TokensEarnLess(l);
      TwoBurstsDiffer(Tokens(l), l);
    }
  }

  lemma SameThroughout(r: Rules, l: Limits, start: int, calls: seq<Call>)
    requires Bounded(r, l) && IdleIsNew(r) && InOrder(calls, start) && NoOverflow(r, start, calls)
    ensures SameAnswers(r, start, calls)
  {
    forall k: nat ensures SameAnswer(r, start, calls, k) {
      if k < |calls| {
        RunMirrors(r, l, start, calls, k + 1);
      }
    }
  }

  // ----- the rate is kept, although idle callers are forgotten -----

  /** What `key` could draw at `now`: a caller nobody remembers has a full bucket. */
  function Credit(l: Limits, s: State, key: string, now: int): int {
    if key in s.buckets then Available(l, s.buckets[key], now) else Full(l)
  }

  /** One for a call answered yes from the caller's own bucket. */
  function Drawn(r: Rules, s: State, key: string, call: Call): int {
    if call.key == key && Own(s, key, call.now) && Allow(r, s, key, call.now).1.allowed then 1 else 0
  }

  /** Calls in `calls[i..j]` answered yes from the bucket of `key`. */
  function DrawnIn(r: Rules, s: State, calls: seq<Call>, key: string, i: nat, j: nat): int
    requires i <= j <= |calls|
    decreases j - i
  {
    if i == j then 0
    else DrawnIn(r, s, calls, key, i, j - 1) + Drawn(r, At(r, s, calls, j - 1), key, calls[j - 1])
  }

  function Gain(l: Limits, earlier: int, now: int): int {
    (now - earlier) * l.perSecond
  }

  lemma GainAdds(l: Limits, a: int, b: int, c: int)
    ensures Gain(l, a, c) == Gain(l, a, b) + Gain(l, b, c)
  {
  }

  lemma ChargePays(l: Limits, b: Bucket, now: int)
    ensures
      var (charged, answer) := Charge(l, b, now);
      Available(l, charged, now) == Available(l, b, now) - if answer.allowed then ONE else 0
  {
  }

  lemma SweepKeepsCredit(l: Limits, s: State, key: string, now: int)
    requires RefillsWhileIdle(l) && Valid(l, s, now)
    ensures Credit(l, Swept(s, now), key, now) == Credit(l, s, key, now)
  {
    if key in s.buckets && key !in Swept(s, now).buckets {
      IdleIsFull(l, s.buckets[key], now);
    }
  }

  lemma CallPaysFromCredit(l: Limits, s: State, key: string, call: Call)
    requires RefillsWhileIdle(l) && Valid(l, s, call.now)
    ensures Credit(l, Allow(Tokens(l), s, call.key, call.now).0, key, call.now) ==
            Credit(l, s, key, call.now) - Drawn(Tokens(l), s, key, call) * ONE
  {
    SweepKeepsCredit(l, s, key, call.now);
    ChargePays(l, OwnBucket(Tokens(l), s, call.key, call.now), call.now);
    assert Available(l, Bucket(Full(l), call.now), call.now) == Full(l);
  }

  lemma CreditGrowsSlowly(l: Limits, s: State, key: string, earlier: int, now: int)
    requires earlier <= now
    ensures Credit(l, s, key, now) <= Credit(l, s, key, earlier) + Gain(l, earlier, now)
  {
    MulMonotone(0, now - earlier, l.perSecond);
    if key in s.buckets {
      GainAdds(l, s.buckets[key].seenAt, earlier, now);
    }
  }

  /** The fall from `before` to `after` pays for the tokens drawn. */
  ghost predicate Paid(drawn: int, before: int, after: int) {
    drawn * ONE <= before - after
  }

  lemma PaidAdds(d1: int, a: int, b: int, d2: int, c: int)
    requires Paid(d1, a, b) && Paid(d2, b, c)
    ensures Paid(d1 + d2, a, c)
  {
  }

  /** `worth` of a caller never rises with time and pays for every token drawn. */
  ghost predicate PaysFor(r: Rules, l: Limits, worth: (State, string, int) -> int) {
    forall s: State, key: string, earlier: int, call: Call
      {:trigger Drawn(r, s, key, call), worth(s, key, earlier)} |
      Valid(l, s, call.now) && earlier <= call.now ::
      Paid(Drawn(r, s, key, call), worth(s, key, earlier), worth(Allow(r, s, call.key, call.now).0, key, call.now))
  }

  ghost predicate PaidIn(r: Rules, worth: (State, string, int) -> int, s: State, calls: seq<Call>, key: string,
                         i: nat, j: nat)
    requires i < j <= |calls|
  {
    Paid(DrawnIn(r, s, calls, key, i, j), worth(At(r, s, calls, i), key, calls[i].now),
      worth(At(r, s, calls, j), key, calls[j - 1].now))
  }

  lemma FirstPays(r: Rules, l: Limits, worth: (State, string, int) -> int, s: State, calls: seq<Call>, key: string,
                  i: nat)
    requires PaysFor(r, l, worth) && i < |calls| && Valid(l, At(r, s, calls, i), calls[i].now)
    ensures PaidIn(r, worth, s, calls, key, i, i + 1)
  {
    assert DrawnIn(r, s, calls, key, i, i) == 0;
    OneCallPays(r, l, worth, At(r, s, calls, i), key, calls[i].now, calls[i]);
  }

  lemma OneMorePays(r: Rules, l: Limits, worth: (State, string, int) -> int, s: State, calls: seq<Call>, key: string,
                    i: nat, j: nat)
    requires PaysFor(r, l, worth) && i + 1 < j <= |calls| && PaidIn(r, worth, s, calls, key, i, j - 1)
    requires Valid(l, At(r, s, calls, j - 1), calls[j - 1].now) && calls[j - 2].now <= calls[j - 1].now
    ensures PaidIn(r, worth, s, calls, key, i, j)
  {
    var last, before := calls[j - 1], At(r, s, calls, j - 1);
    OneCallPays(r, l, worth, before, key, calls[j - 2].now, last);
    PaidAdds(DrawnIn(r, s, calls, key, i, j - 1), worth(At(r, s, calls, i), key, calls[i].now),
             worth(before, key, calls[j - 2].now),
             Drawn(r, before, key, last), worth(At(r, s, calls, j), key, last.now));
  }

  ghost predicate ValidAt(r: Rules, l: Limits, s: State, calls: seq<Call>, k: nat)
    requires k < |calls|
  {
    Valid(l, At(r, s, calls, k), calls[k].now) && (k > 0 ==> calls[k - 1].now <= calls[k].now)
  }

  lemma {:induction false} WindowPays(r: Rules, l: Limits, worth: (State, string, int) -> int, s: State,
                                      calls: seq<Call>, key: string, i: nat, j: nat)
    requires PaysFor(r, l, worth) && i < j <= |calls| && forall k | 0 <= k < |calls| :: ValidAt(r, l, s, calls, k)
    ensures PaidIn(r, worth, s, calls, key, i, j)
    decreases j - i
  {
    assert ValidAt(r, l, s, calls, j - 1);
    if i + 1 == j {
      FirstPays(r, l, worth, s, calls, key, i);
    } else {
      WindowPays(r, l, worth, s, calls, key, i, j - 1);
      OneMorePays(r, l, worth, s, calls, key, i, j);
    }
  }

  lemma OneCallPays(r: Rules, l: Limits, worth: (State, string, int) -> int, s: State, key: string, earlier: int,
                    call: Call)
    requires PaysFor(r, l, worth) && Valid(l, s, call.now) && earlier <= call.now
    ensures Paid(Drawn(r, s, key, call), worth(s, key, earlier),
      worth(Allow(r, s, call.key, call.now).0, key, call.now))
  {
  }

  /** Credit measured against the clock: what is earned by waiting is not counted. */
  function Worth(l: Limits, s: State, key: string, now: int): int {
    Credit(l, s, key, now) - now * l.perSecond
  }

  lemma CreditPays(l: Limits)
    requires RefillsWhileIdle(l)
    ensures PaysFor(Tokens(l), l, (s, key, now) => Worth(l, s, key, now))
  {
    forall s: State, key: string, earlier: int, call: Call
      {:trigger Drawn(Tokens(l), s, key, call), Worth(l, s, key, earlier)} |
      Valid(l, s, call.now) && earlier <= call.now
      ensures Paid(Drawn(Tokens(l), s, key, call), Worth(l, s, key, earlier),
                   Worth(l, Allow(Tokens(l), s, call.key, call.now).0, key, call.now))
    {
      CallLowersWorth(l, s, key, earlier, call);
    }
  }

  lemma CallLowersWorth(l: Limits, s: State, key: string, earlier: int, call: Call)
    requires RefillsWhileIdle(l) && Valid(l, s, call.now) && earlier <= call.now
    ensures Paid(Drawn(Tokens(l), s, key, call), Worth(l, s, key, earlier),
                 Worth(l, Allow(Tokens(l), s, call.key, call.now).0, key, call.now))
  {
    CallPaysFromCredit(l, s, key, call);
    CreditGrowsSlowly(l, s, key, earlier, call.now);
  }

  /** Every window of the run draws at most the burst plus what the window earns. */
  ghost predicate KeepsRate(r: Rules, l: Limits, start: int, calls: seq<Call>, key: string) {
    forall i: nat, j: nat | i < j <= |calls| ::
      DrawnIn(r, Fresh(r, start), calls, key, i, j) * ONE <=
      Full(l) + Gain(l, calls[i].now, calls[j - 1].now)
  }

  lemma RateIsKept(l: Limits, start: int, calls: seq<Call>, key: string)
    requires RefillsWhileIdle(l) && InOrder(calls, start)
    ensures KeepsRate(Tokens(l), l, start, calls, key)
  {
    var r, s := Tokens(l), Fresh(Tokens(l), start);
    TokensAreBounded(l);
    CreditPays(l);
    forall k | 0 <= k < |calls| ensures ValidAt(r, l, s, calls, k) {
      AlwaysBounded(l, start, calls, k, calls[k].now);
    }
    forall i: nat, j: nat | i < j <= |calls|
      ensures DrawnIn(r, s, calls, key, i, j) * ONE <= Full(l) + Gain(l, calls[i].now, calls[j - 1].now)
    {
      WindowPays(r, l, (s, key, now) => Worth(l, s, key, now), s, calls, key, i, j);
      AlwaysBounded(l, start, calls, j, calls[j - 1].now);
      var end := At(r, s, calls, j);
      if key in end.buckets {
        NothingNegative(l, end.buckets[key], calls[j - 1].now);
      }
    }
  }

  // ----- and nobody who keeps to the rate is refused -----

  /** What a caller could draw at `now` had it been full at `since` and drawn so many tokens from then on. */
  function Unspent(l: Limits, since: int, now: int, drawn: int): int {
    Full(l) + Gain(l, since, now) - drawn * ONE
  }

  /** One more call in the window from `i` on would draw more than the burst and what the window earns. */
  ghost predicate WouldExceed(r: Rules, l: Limits, s: State, calls: seq<Call>, i: nat, j: nat)
    requires i <= j < |calls|
  {
    Unspent(l, calls[i].now, calls[j].now, DrawnIn(r, s, calls, calls[j].key, i, j)) < ONE
  }

  lemma SweepRaisesCredit(l: Limits, s: State, key: string, now: int)
    ensures Credit(l, Swept(s, now), key, now) >= Credit(l, s, key, now)
  {
  }

  lemma CallTakesNoMore(l: Limits, s: State, key: string, call: Call)
    requires Valid(l, s, call.now)
    ensures Credit(l, Allow(Tokens(l), s, call.key, call.now).0, key, call.now) >=
            Credit(l, s, key, call.now) - Drawn(Tokens(l), s, key, call) * ONE
  {
    SweepRaisesCredit(l, s, key, call.now);
    ChargePays(l, OwnBucket(Tokens(l), s, call.key, call.now), call.now);
    assert Available(l, Bucket(Full(l), call.now), call.now) == Full(l);
  }

  lemma CreditGrows(l: Limits, s: State, key: string, earlier: int, now: int)
    requires earlier <= now
    ensures Credit(l, s, key, now) == Full(l)
      || Credit(l, s, key, now) >= Credit(l, s, key, earlier) + Gain(l, earlier, now)
  {
    if key in s.buckets {
      GainAdds(l, s.buckets[key].seenAt, earlier, now);
    }
  }

  lemma UnspentLater(l: Limits, since: int, earlier: int, now: int, drawn: int, more: int)
    ensures Unspent(l, since, earlier, drawn) - more * ONE + Gain(l, earlier, now)
      == Unspent(l, since, now, drawn + more)
  {
    GainAdds(l, since, earlier, now);
  }

  /** A caller's credit is full, or at least what it has earned and not drawn since some earlier call. */
  ghost predicate Earned(r: Rules, l: Limits, s: State, calls: seq<Call>, key: string, k: nat, now: int, i: nat)
    requires i <= k <= |calls|
  {
    if i == k then Credit(l, At(r, s, calls, k), key, now) == Full(l)
    else Credit(l, At(r, s, calls, k), key, now) >= Unspent(l, calls[i].now, now, DrawnIn(r, s, calls, key, i, k))
  }

  lemma {:induction false} CreditIsEarned(l: Limits, start: int, calls: seq<Call>, key: string, k: nat, now: int)
    returns (i: nat)
    requires InOrder(calls, start) && k <= |calls| && (k > 0 ==> calls[k - 1].now <= now)
    ensures i <= k && Earned(Tokens(l), l, Fresh(Tokens(l), start), calls, key, k, now, i)
  {
    i := 0;
    if k > 0 {
      var r, s, call := Tokens(l), Fresh(Tokens(l), start), calls[k - 1];
      var before, after := At(r, s, calls, k - 1), At(r, s, calls, k);
      i := CreditIsEarned(l, start, calls, key, k - 1, call.now);
      var drawn, more := DrawnIn(r, s, calls, key, i, k - 1), Drawn(r, before, key, call);
      assert Credit(l, before, key, call.now) >= Unspent(l, calls[i].now, call.now, drawn) by {
        assert i == k - 1 ==> drawn == 0 && Gain(l, call.now, call.now) == 0;
      }
      AlwaysBounded(l, start, calls, k - 1, call.now);
      OneCallEarns(l, before, key, call, now, calls[i].now, drawn);
      assert DrawnIn(r, s, calls, key, i, k) == drawn + more;
      if Credit(l, after, key, now) == Full(l) {
        i := k;
      }
    }
  }

  /** A call costs what it draws, and time gives back what it earns, unless the bucket is full again. */
  lemma OneCallEarns(l: Limits, s: State, key: string, call: Call, now: int, since: int, drawn: int)
    requires Valid(l, s, call.now) && call.now <= now
    requires Credit(l, s, key, call.now) >= Unspent(l, since, call.now, drawn)
    ensures
      var credit := Credit(l, Allow(Tokens(l), s, call.key, call.now).0, key, now);
      credit == Full(l) || credit >= Unspent(l, since, now, drawn + Drawn(Tokens(l), s, key, call))
  {
    CallTakesNoMore(l, s, key, call);
    CreditGrows(l, Allow(Tokens(l), s, call.key, call.now).0, key, call.now, now);
    UnspentLater(l, since, call.now, now, drawn, Drawn(Tokens(l), s, key, call));
  }

  lemma RefusedHasNone(l: Limits, s: State, key: string, now: int)
    requires Own(s, key, now) && !Allow(Tokens(l), s, key, now).1.allowed
    ensures Credit(l, s, key, now) < ONE
  {
    assert Available(l, Bucket(Full(l), now), now) == Full(l);
  }

  /** Whatever is forgotten, a refusal by a caller's own bucket is never for nothing. */
  lemma RefusedBeyondRate(l: Limits, start: int, calls: seq<Call>, j: nat) returns (i: nat)
    requires InOrder(calls, start) && j < |calls|
    requires Own(At(Tokens(l), Fresh(Tokens(l), start), calls, j), calls[j].key, calls[j].now)
    requires !AnswerAt(Tokens(l), Fresh(Tokens(l), start), calls, j).allowed
    ensures i < j && WouldExceed(Tokens(l), l, Fresh(Tokens(l), start), calls, i, j)
  {
    i := CreditIsEarned(l, start, calls, calls[j].key, j, calls[j].now);
    RefusedHasNone(l, At(Tokens(l), Fresh(Tokens(l), start), calls, j), calls[j].key, calls[j].now);
  }

  /**
   If idle buckets refill before they are forgotten, a caller's own bucket refuses a call exactly if
   one more would draw, in some window up to now, more than the burst and what the window earns.
   */
  lemma RefusedIff(l: Limits, start: int, calls: seq<Call>, j: nat)
    requires RefillsWhileIdle(l) && InOrder(calls, start) && j < |calls|
    requires Own(At(Tokens(l), Fresh(Tokens(l), start), calls, j), calls[j].key, calls[j].now)
    ensures !AnswerAt(Tokens(l), Fresh(Tokens(l), start), calls, j).allowed <==>
      exists i: nat :: i < j && WouldExceed(Tokens(l), l, Fresh(Tokens(l), start), calls, i, j)
  {
    var r, s := Tokens(l), Fresh(Tokens(l), start);
    if !AnswerAt(r, s, calls, j).allowed {
      var i := RefusedBeyondRate(l, start, calls, j);
    } else {
      RateIsKept(l, start, calls, calls[j].key);
      forall i: nat | i < j ensures !WouldExceed(r, l, s, calls, i, j) {
        assert DrawnIn(r, s, calls, calls[j].key, i, j + 1) == DrawnIn(r, s, calls, calls[j].key, i, j) + 1;
        assert (j + 1) - 1 == j;
      }
    }
  }

  lemma {:induction false} TwoBurstsDraw(r: Rules, l: Limits, k: nat)
    requires CountsDown(r, l) && k <= 2 * l.burst
    ensures DrawnIn(r, Fresh(r, 0), TwoBursts(l), "a", 0, k) == k
  {
    if k > 0 {
      TwoBurstsDraw(r, l, k - 1);
      TwoBurstsForgetting(r, l, k - 1);
      BurstStep(r, l, At(r, Fresh(r, 0), TwoBursts(l), k - 1), k - 1);
    }
  }

  lemma TwoBurstsExceed(r: Rules, l: Limits)
    requires CountsDown(r, l) && !RefillsWhileIdle(l)
    ensures InOrder(TwoBursts(l), 0) && !KeepsRate(r, l, 0, TwoBursts(l), "a")
  {
    var calls, n := TwoBursts(l), 2 * l.burst;
    TwoBurstsDraw(r, l, n);
    assert Gain(l, calls[0].now, calls[n - 1].now) == 300 * l.perSecond * ONE;
    assert DrawnIn(r, Fresh(r, 0), calls, "a", 0, n) * ONE == 2 * Full(l);
  }

  /** Every caller is held to its rate in every run exactly under the same condition. */
  lemma RateIsKeptIff(l: Limits)
    ensures RefillsWhileIdle(l) <==>
            forall start: int, calls: seq<Call>, key: string | InOrder(calls, start) ::
              KeepsRate(Tokens(l), l, start, calls, key)
  {
    if RefillsWhileIdle(l) {
      forall start: int, calls: seq<Call>, key: string | InOrder(calls, start)
        ensures KeepsRate(Tokens(l), l, start, calls, key)
      {
        RateIsKept(l, start, calls, key);
      }
    } else {
      TokensCountDown(l);
      TwoBurstsExceed(Tokens(l), l);
    }
  }

  // ----- Retry-After -----

  /** The header carries whole seconds (section 10.2.3 of RFC 9110). */
  function RetryAfter(answer: Answer): int {
    answer.wait / SECOND
  }

  /** A bucket left alone for as long as its refusal said pays for the next call. */
  ghost predicate WaitingPays(r: Rules, l: Limits) {
    && (forall now :: r.charge(r.open(now), now).1.allowed)
    && forall b: Bucket, refused, now {:trigger r.charge(r.charge(b, refused).0, now)} |
         && ValidBucket(l, b, refused) && !r.charge(b, refused).1.allowed
         && now >= refused + RetryAfter(r.charge(b, refused).1) * SECOND ::
         r.charge(r.charge(b, refused).0, now).1.allowed
  }

  lemma WaitRefillsOne(l: Limits, b: Bucket, refused: int, now: int)
    requires ValidBucket(l, b, refused) && !Charge(l, b, refused).1.allowed
    requires now >= refused + RetryAfter(Charge(l, b, refused).1) * SECOND
    ensures Charge(l, Charge(l, b, refused).0, now).1.allowed
  {
    var (left, answer) := Charge(l, b, refused);
    var missing, ps := ONE - left.tokens, l.perSecond;
    assert missing <= (missing / ps + 1) * ps by {
      assert missing == missing / ps * ps + missing % ps;
    }
    MulMonotone(missing / ps + 1, now - refused, ps);
  }

  lemma TokensWaitingPays(l: Limits)
    ensures WaitingPays(Tokens(l), l)
  {
    forall b: Bucket, refused, now |
      && ValidBucket(l, b, refused) && !Charge(l, b, refused).1.allowed
      && now >= refused + RetryAfter(Charge(l, b, refused).1) * SECOND
      ensures Charge(l, Charge(l, b, refused).0, now).1.allowed
    {
      WaitRefillsOne(l, b, refused, now);
    }
  }

  /** Between the refusal and the retry the caller does not call, nor is its bucket charged. */
  ghost predicate Quiet(r: Rules, s: State, calls: seq<Call>, i: nat, j: nat)
    requires i < j < |calls|
  {
    forall m | i < m < j ::
      && calls[m].key != calls[i].key
      && (Own(At(r, s, calls, i), calls[i].key, calls[i].now) || Own(At(r, s, calls, m), calls[m].key, calls[m].now))
  }

  /** The refused bucket is as the refusal left it; one of the caller's own may have been forgotten since. */
  ghost predicate StillCharged(r: Rules, at: State, call: Call, later: State) {
    if Own(at, call.key, call.now) then
      call.key in later.buckets ==>
        later.buckets[call.key] == r.charge(OwnBucket(r, at, call.key, call.now), call.now).0
    else
      && call.key !in later.buckets
      && later.shared == r.charge(Swept(at, call.now).shared, call.now).0
  }

  lemma {:induction false} RefusedBucketStands(r: Rules, s: State, calls: seq<Call>, i: nat, j: nat, m: nat)
    requires i < m <= j < |calls| && Quiet(r, s, calls, i, j)
    ensures StillCharged(r, At(r, s, calls, i), calls[i], At(r, s, calls, m))
  {
    if m > i + 1 {
      RefusedBucketStands(r, s, calls, i, j, m - 1);
    }
  }

  /** Charging stamps the bucket. */
  ghost predicate ChargesNow(r: Rules) {
    forall b: Bucket, now :: r.charge(b, now).0.seenAt == now
  }

  /** For five minutes nothing forgets the refused bucket. */
  lemma {:induction false} NotYetForgotten(r: Rules, s: State, calls: seq<Call>, from: int, i: nat, j: nat, m: nat)
    requires ChargesNow(r) && InOrder(calls, from) && i < m <= j < |calls| && Quiet(r, s, calls, i, j)
    requires calls[m - 1].now < calls[i].now + IDLE && Own(At(r, s, calls, i), calls[i].key, calls[i].now)
    ensures calls[i].key in At(r, s, calls, m).buckets
      && At(r, s, calls, m).buckets[calls[i].key].seenAt == calls[i].now
  {
    if m > i + 1 {
      NotYetForgotten(r, s, calls, from, i, j, m - 1);
    }
  }

  /** The retry is not pushed off its own bucket: it comes soon, or there is still room for it. */
  ghost predicate NotPushedOut(r: Rules, s: State, calls: seq<Call>, i: nat, j: nat)
    requires i < j < |calls|
  {
    || calls[j].now < calls[i].now + IDLE
    || (Own(At(r, s, calls, i), calls[i].key, calls[i].now) ==> Own(At(r, s, calls, j), calls[j].key, calls[j].now))
  }

  lemma RetrySucceeds(r: Rules, l: Limits, s: State, calls: seq<Call>, from: int, i: nat, j: nat)
    requires Bounded(r, l) && ChargesNow(r) && WaitingPays(r, l) && Valid(l, s, from) && InOrder(calls, from)
    requires i < j < |calls| && calls[j].key == calls[i].key && Quiet(r, s, calls, i, j)
      && NotPushedOut(r, s, calls, i, j)
    requires !AnswerAt(r, s, calls, i).allowed
    requires calls[i].now + RetryAfter(AnswerAt(r, s, calls, i)) * SECOND <= calls[j].now
    ensures AnswerAt(r, s, calls, j).allowed
  {
    RunKeepsValid(r, l, s, calls, from, i, calls[i].now);
    RefusedBucketStands(r, s, calls, i, j, j);
    if calls[j].now < calls[i].now + IDLE && Own(At(r, s, calls, i), calls[i].key, calls[i].now) {
      NotYetForgotten(r, s, calls, from, i, j, j);
    }
  }

  /**
   A refused caller that waits as long as it was told to, and does nothing else meanwhile, is let
   through, whatever sweeps and other callers come in between, unless it comes back so late that
   it was forgotten and finds the table full.
   */
  lemma RetryAfterSuffices(l: Limits, start: int, calls: seq<Call>, i: nat, j: nat)
    requires InOrder(calls, start) && i < j < |calls| && calls[j].key == calls[i].key
    requires Quiet(Tokens(l), Fresh(Tokens(l), start), calls, i, j)
    requires NotPushedOut(Tokens(l), Fresh(Tokens(l), start), calls, i, j)
    requires
      var answer := AnswerAt(Tokens(l), Fresh(Tokens(l), start), calls, i);
      !answer.allowed && calls[i].now + RetryAfter(answer) * SECOND <= calls[j].now
    ensures AnswerAt(Tokens(l), Fresh(Tokens(l), start), calls, j).allowed
  {
    TokensAreBounded(l);
    TokensWaitingPays(l);
    RetrySucceeds(Tokens(l), l, Fresh(Tokens(l), start), calls, start, i, j);
  }

  /** Within five minutes of the refusal nothing more is needed. */
  lemma PromptRetrySucceeds(l: Limits, start: int, calls: seq<Call>, i: nat, j: nat)
    requires InOrder(calls, start) && i < j < |calls| && calls[j].key == calls[i].key
    requires Quiet(Tokens(l), Fresh(Tokens(l), start), calls, i, j)
    requires
      var answer := AnswerAt(Tokens(l), Fresh(Tokens(l), start), calls, i);
      !answer.allowed && calls[i].now + RetryAfter(answer) * SECOND <= calls[j].now < calls[i].now + IDLE
    ensures AnswerAt(Tokens(l), Fresh(Tokens(l), start), calls, j).allowed
  {
    RetryAfterSuffices(l, start, calls, i, j);
  }

  /**
   However late, the retry is refused exactly if the refusal was by the caller's own bucket, the
   retry is charged to the shared one because the table is full, and the shared one is spent.
   */
  lemma RetryRefusedIff(l: Limits, start: int, calls: seq<Call>, i: nat, j: nat)
    requires InOrder(calls, start) && i < j < |calls| && calls[j].key == calls[i].key
    requires Quiet(Tokens(l), Fresh(Tokens(l), start), calls, i, j)
    requires
      var answer := AnswerAt(Tokens(l), Fresh(Tokens(l), start), calls, i);
      !answer.allowed && calls[i].now + RetryAfter(answer) * SECOND <= calls[j].now
    ensures
      var r := Tokens(l);
      var s := Fresh(r, start);
      var at, late := At(r, s, calls, i), At(r, s, calls, j);
      !AnswerAt(r, s, calls, j).allowed <==>
        && Own(at, calls[i].key, calls[i].now)
        && !Own(late, calls[j].key, calls[j].now)
        && Available(l, late.shared, calls[j].now) < ONE
  {
    var r := Tokens(l);
    if NotPushedOut(r, Fresh(r, start), calls, i, j) {
      RetryAfterSuffices(l, start, calls, i, j);
      if calls[j].now < calls[i].now + IDLE && Own(At(r, Fresh(r, start), calls, i), calls[i].key, calls[i].now) {
        NotYetForgotten(r, Fresh(r, start), calls, start, i, j, j);
      }
    }
  }

  // How long the wait is.

  /** What a refused bucket lacks to one token, in billionths. */
  function Missing(l: Limits, b: Bucket, refused: int): int {
    ONE - Charge(l, b, refused).0.tokens
  }

  /** Left alone, the bucket pays for a call exactly once it has earned what was missing. */
  lemma PaysOnceEarned(l: Limits, b: Bucket, refused: int, now: int)
    requires ValidBucket(l, b, refused) && !Charge(l, b, refused).1.allowed && refused <= now
    ensures Charge(l, Charge(l, b, refused).0, now).1.allowed
      <==> (now - refused) * l.perSecond >= Missing(l, b, refused)
    ensures 0 < Missing(l, b, refused) <= ONE
  {
    NothingNegative(l, b, refused);
    LeftEarns(l, b.tokens + (refused - b.seenAt) * l.perSecond, refused, now);
  }

  lemma LeftEarns(l: Limits, sum: int, refused: int, now: int)
    requires Min(Full(l), sum) < ONE && refused <= now
    ensures
      Charge(l, Bucket(Min(Full(l), sum), refused), now).1.allowed <==>
        (now - refused) * l.perSecond >= ONE - Min(Full(l), sum)
  {
    assert Full(l) >= ONE;
  }

  lemma DivideThenScale(a: int, b: int)
    requires a >= 0 && b > 0
    ensures a / b * b <= a < (a / b + 1) * b
  {
    assert a == a / b * b + a % b;
  }

  /**
   The wait is the whole nanoseconds the missing part takes to earn, and one second. Retry-After is one
   second or two. It is always enough, and never more than a second too much: one second earlier than
   it says the bucket still lacks a token.
   */
  lemma WaitIsTight(l: Limits, b: Bucket, refused: int)
    requires ValidBucket(l, b, refused) && !Charge(l, b, refused).1.allowed
    ensures
      var wait, earning := RetryAfter(Charge(l, b, refused).1), Charge(l, b, refused).1.wait - SECOND;
      && earning * l.perSecond <= Missing(l, b, refused) < (earning + 1) * l.perSecond
      && 1 <= wait <= 2
      && wait * SECOND * l.perSecond >= Missing(l, b, refused)
      && forall now | refused <= now < refused + (wait - 1) * SECOND ::
        !Charge(l, Charge(l, b, refused).0, now).1.allowed
  {
    var answer, missing, ps := Charge(l, b, refused).1, Missing(l, b, refused), l.perSecond;
    assert 0 < missing <= ONE by {
      PaysOnceEarned(l, b, refused, refused);
    }
    var nanos := missing / ps;
    assert answer.wait == nanos + SECOND;
    WaitInSeconds(missing, ps, nanos, RetryAfter(answer));
    forall now | refused <= now < refused + (RetryAfter(answer) - 1) * SECOND
      ensures !Charge(l, Charge(l, b, refused).0, now).1.allowed
    {
      EarnsTooLittle(now - refused, nanos, ps, missing);
      PaysOnceEarned(l, b, refused, now);
    }
  }

  lemma WaitInSeconds(missing: int, ps: int, nanos: int, wait: int)
    requires 0 < missing <= ONE && ps >= 1 && nanos == missing / ps && wait == (nanos + SECOND) / SECOND
    ensures nanos * ps <= missing < (nanos + 1) * ps
    ensures 1 <= wait <= 2 && wait * SECOND * ps >= missing && (wait - 1) * SECOND <= nanos
  {
    DivideThenScale(missing, ps);
    assert nanos <= missing by {
      MulMonotone(1, ps, nanos);
    }
    assert wait == nanos / SECOND + 1;
    MulMonotone(nanos + 1, wait * SECOND, ps);
  }

  lemma EarnsTooLittle(elapsed: int, nanos: int, ps: int, missing: int)
    requires elapsed < nanos && ps >= 1 && nanos * ps <= missing
    ensures elapsed * ps < missing
  {
    MulMonotone(elapsed + 1, nanos, ps);
  }

  /** More than a second before its wait is over a refused bucket refuses again. */
  ghost predicate WaitingIsNeeded(r: Rules, l: Limits) {
    forall b: Bucket, refused, now {:trigger r.charge(r.charge(b, refused).0, now)} |
      && ValidBucket(l, b, refused) && !r.charge(b, refused).1.allowed
      && refused <= now < refused + (RetryAfter(r.charge(b, refused).1) - 1) * SECOND ::
      !r.charge(r.charge(b, refused).0, now).1.allowed
  }

  ghost predicate WaitsAreShort(r: Rules, l: Limits) {
    forall b: Bucket, refused {:trigger r.charge(b, refused)} |
      ValidBucket(l, b, refused) && !r.charge(b, refused).1.allowed :: 1 <= RetryAfter(r.charge(b, refused).1) <= 2
  }

  lemma TokensWaits(l: Limits)
    ensures WaitingIsNeeded(Tokens(l), l) && WaitsAreShort(Tokens(l), l)
  {
    forall b: Bucket, refused | ValidBucket(l, b, refused) && !Charge(l, b, refused).1.allowed
      ensures 1 <= RetryAfter(Charge(l, b, refused).1) <= 2
      ensures forall now | refused <= now < refused + (RetryAfter(Charge(l, b, refused).1) - 1) * SECOND ::
        !Charge(l, Charge(l, b, refused).0, now).1.allowed
    {
      WaitIsTight(l, b, refused);
    }
  }

  /** Too early on its own bucket: within the second nothing forgets it. */
  lemma EarlyOnItsOwn(r: Rules, l: Limits, at: State, call: Call, later: State, retry: Call)
    requires WaitingIsNeeded(r, l) && Valid(l, at, call.now) && BoundedOpen(r, l, call.now)
    requires Own(at, call.key, call.now) && StillCharged(r, at, call, later) && retry.key == call.key
    requires call.key in later.buckets && later.buckets[call.key].seenAt == call.now
    requires !Allow(r, at, call.key, call.now).1.allowed
    requires call.now <= retry.now < call.now + (RetryAfter(Allow(r, at, call.key, call.now).1) - 1) * SECOND
    requires retry.now < call.now + IDLE
    ensures Own(later, retry.key, retry.now) && !Allow(r, later, retry.key, retry.now).1.allowed
  {
    var b := OwnBucket(r, at, call.key, call.now);
    assert ValidBucket(l, b, call.now);
    assert Allow(r, at, call.key, call.now).1 == r.charge(b, call.now).1;
    assert OwnBucket(r, later, retry.key, retry.now) == r.charge(b, call.now).0;
  }

  ghost predicate BoundedOpen(r: Rules, l: Limits, now: int) {
    ValidBucket(l, r.open(now), now)
  }

  /** Too early on the shared bucket: refused unless there is room by now. */
  lemma EarlyOnTheShared(r: Rules, l: Limits, at: State, call: Call, later: State, retry: Call)
    requires WaitingIsNeeded(r, l) && WaitingPays(r, l) && Valid(l, at, call.now)
    requires !Own(at, call.key, call.now) && StillCharged(r, at, call, later) && retry.key == call.key
    requires !Allow(r, at, call.key, call.now).1.allowed
    requires call.now <= retry.now < call.now + (RetryAfter(Allow(r, at, call.key, call.now).1) - 1) * SECOND
    ensures Allow(r, later, retry.key, retry.now).1.allowed <==> Own(later, retry.key, retry.now)
  {
    var b := Swept(at, call.now).shared;
    assert Allow(r, at, call.key, call.now).1 == r.charge(b, call.now).1;
    if Own(later, retry.key, retry.now) {
      assert OwnBucket(r, later, retry.key, retry.now) == r.open(retry.now);
    } else {
      assert Swept(later, retry.now).shared == r.charge(b, call.now).0;
    }
  }

  lemma EarlyRetryFailsIff(r: Rules, l: Limits, s: State, calls: seq<Call>, from: int, i: nat, j: nat)
    requires Bounded(r, l) && ChargesNow(r) && WaitingIsNeeded(r, l) && WaitsAreShort(r, l) && WaitingPays(r, l)
    requires Valid(l, s, from) && InOrder(calls, from)
    requires i < j < |calls| && calls[j].key == calls[i].key && Quiet(r, s, calls, i, j)
    requires !AnswerAt(r, s, calls, i).allowed
    requires calls[j].now < calls[i].now + (RetryAfter(AnswerAt(r, s, calls, i)) - 1) * SECOND
    ensures AnswerAt(r, s, calls, j).allowed <==>
      !Own(At(r, s, calls, i), calls[i].key, calls[i].now) && Own(At(r, s, calls, j), calls[j].key, calls[j].now)
  {
    var at, later := At(r, s, calls, i), At(r, s, calls, j);
    assert Valid(l, at, calls[i].now) && BoundedOpen(r, l, calls[i].now) by {
      RunKeepsValid(r, l, s, calls, from, i, calls[i].now);
    }
    assert StillCharged(r, at, calls[i], later) by {
      RefusedBucketStands(r, s, calls, i, j, j);
    }
    RefusalWaits(r, l, s, calls, from, i);
    if Own(at, calls[i].key, calls[i].now) {
      NotYetForgotten(r, s, calls, from, i, j, j);
      EarlyOnItsOwn(r, l, at, calls[i], later, calls[j]);
    } else {
      EarlyOnTheShared(r, l, at, calls[i], later, calls[j]);
    }
  }

  /**
   In every run a refusal asks for one second or two. A caller that comes back more than a second
   earlier than it was told, with nothing else charged, is refused again, unless it was refused on the
   shared bucket and there is room by now for one of its own.
   */
  lemma RetryAfterIsTight(l: Limits, start: int, calls: seq<Call>, i: nat, j: nat)
    requires InOrder(calls, start) && i < j < |calls| && calls[j].key == calls[i].key
    requires Quiet(Tokens(l), Fresh(Tokens(l), start), calls, i, j)
    requires !AnswerAt(Tokens(l), Fresh(Tokens(l), start), calls, i).allowed
    ensures
      var r, s := Tokens(l), Fresh(Tokens(l), start);
      var wait := RetryAfter(AnswerAt(r, s, calls, i));
      && 1 <= wait <= 2
      && (calls[j].now < calls[i].now + (wait - 1) * SECOND ==>
          (AnswerAt(r, s, calls, j).allowed <==>
            && !Own(At(r, s, calls, i), calls[i].key, calls[i].now)
            && Own(At(r, s, calls, j), calls[j].key, calls[j].now)))
  {
    var r, s := Tokens(l), Fresh(Tokens(l), start);
    TokensAreBounded(l);
    TokensWaits(l);
    TokensWaitingPays(l);
    RefusalWaits(r, l, s, calls, start, i);
    if calls[j].now < calls[i].now + (RetryAfter(AnswerAt(r, s, calls, i)) - 1) * SECOND {
      EarlyRetryFailsIff(r, l, s, calls, start, i, j);
    }
  }

  lemma RefusalWaits(r: Rules, l: Limits, s: State, calls: seq<Call>, from: int, i: nat)
    requires Bounded(r, l) && WaitsAreShort(r, l) && Valid(l, s, from) && InOrder(calls, from)
    requires i < |calls| && !AnswerAt(r, s, calls, i).allowed
    ensures 1 <= RetryAfter(AnswerAt(r, s, calls, i)) <= 2
  {
    RunKeepsValid(r, l, s, calls, from, i, calls[i].now);
  }

  lemma EveryRefusalWaits(l: Limits, start: int, calls: seq<Call>, i: nat)
    requires InOrder(calls, start) && i < |calls| && !AnswerAt(Tokens(l), Fresh(Tokens(l), start), calls, i).allowed
    ensures 1 <= RetryAfter(AnswerAt(Tokens(l), Fresh(Tokens(l), start), calls, i)) <= 2
  {
    TokensAreBounded(l);
    TokensWaits(l);
    RefusalWaits(Tokens(l), l, Fresh(Tokens(l), start), calls, start, i);
  }

  /** A caller let through is told nothing to wait for. */
  lemma AllowedNeedNotWait(l: Limits, s: State, key: string, now: int)
    requires Allow(Tokens(l), s, key, now).1.allowed
    ensures Allow(Tokens(l), s, key, now).1.wait == 0
  {
  }

  /**
   The limiter says that it overflowed exactly if some caller was charged to the shared bucket since
   a sweep last left room.
   */
  lemma OverflowTellsIff(r: Rules, s: State, key: string, now: int)
    ensures
      Allow(r, s, key, now).0.overflow <==>
        !Own(s, key, now) || (s.overflow && (now - s.sweptAt < IDLE || |Swept(s, now).buckets| >= MAX_TRACKED))
  {
  }

  // A caller pushed out: refused, forgotten, and refused again on the shared bucket.

  const SLOW: Limits := Rate(1, 1)

  function Name(i: nat): string {
    seq(i + 1, _ => 'k')
  }

  /** "a" spends its token and is refused; five minutes on `n` others and "z" come, and then "a" again. */
  function PushCalls(n: nat): seq<Call> {
    [Call("a", 0), Call("a", 0)]
    + seq(n, i requires 0 <= i => Call(Name(i), IDLE))
    + [Call("z", IDLE), Call("a", IDLE)]
  }

  /** The first `n` names have a bucket each and nobody else has; the shared bucket is untouched. */
  ghost predicate Filled(s: State, n: nat) {
    && s.buckets.Keys == (set i | 0 <= i < n :: Name(i)) && |s.buckets| == n
    && (forall k | k in s.buckets :: s.buckets[k].seenAt == IDLE)
    && s.shared == Bucket(Full(SLOW), 0) && s.sweptAt == IDLE
  }

  ghost predicate CanFill(s: State, n: nat) {
    if n == 0 then Swept(s, IDLE) == State(map[], Bucket(Full(SLOW), 0), IDLE, false) else Filled(s, n)
  }

  lemma NamesDiffer(i: nat, j: nat)
    ensures Name(i) == Name(j) <==> i == j
  {
    assert |Name(i)| == i + 1 && |Name(j)| == j + 1;
  }

  lemma FillOne(s: State, n: nat)
    requires n < MAX_TRACKED && CanFill(s, n)
    ensures Filled(Allow(Tokens(SLOW), s, Name(n), IDLE).0, n + 1)
  {
    var swept, now := Swept(s, IDLE), Allow(Tokens(SLOW), s, Name(n), IDLE).0;
    if n > 0 {
      forall i: nat | i < n ensures Name(i) != Name(n) {
        NamesDiffer(i, n);
      }
      assert Name(n) !in swept.buckets;
    }
    assert now.buckets.Keys == swept.buckets.Keys + {Name(n)};
    assert (set i | 0 <= i < n + 1 :: Name(i)) == (set i | 0 <= i < n :: Name(i)) + {Name(n)};
  }

  lemma SpentAndRefused(n: nat)
    ensures
      var r, calls := Tokens(SLOW), PushCalls(n);
      var s := At(r, Fresh(r, 0), calls, 2);
      && !AnswerAt(r, Fresh(r, 0), calls, 1).allowed && RetryAfter(AnswerAt(r, Fresh(r, 0), calls, 1)) * SECOND <= IDLE
      && Own(At(r, Fresh(r, 0), calls, 1), "a", 0)
      && CanFill(s, 0)
  {
    var r, calls := Tokens(SLOW), PushCalls(n);
    var s0 := Fresh(r, 0);
    var s1 := Allow(r, s0, "a", 0).0;
    assert s1.buckets == map["a" := Bucket(0, 0)];
    assert At(r, s0, calls, 1) == s1;
    var s2 := Allow(r, s1, "a", 0).0;
    assert s2.buckets == map["a" := Bucket(0, 0)];
    assert At(r, s0, calls, 2) == s2;
  }

  lemma NthOther(n: nat, m: nat)
    requires 1 <= m <= n
    ensures PushCalls(n)[m + 1] == Call(Name(m - 1), IDLE)
  {
  }

  function Pushed(n: nat, k: nat): State
    requires k <= n + 4
  {
    At(Tokens(SLOW), Fresh(Tokens(SLOW), 0), PushCalls(n), k)
  }

  lemma FillNext(n: nat, m: nat)
    requires m < n <= MAX_TRACKED && CanFill(Pushed(n, m + 2), m)
    ensures Filled(Pushed(n, m + 3), m + 1)
  {
    NthOther(n, m + 1);
    FillOne(Pushed(n, m + 2), m);
  }

  lemma {:induction false} OthersFill(n: nat, m: nat)
    requires m <= n <= MAX_TRACKED
    ensures CanFill(Pushed(n, m + 2), m)
  {
    if m == 0 {
      SpentAndRefused(n);
    } else {
      OthersFill(n, m - 1);
      FillNext(n, m - 1);
    }
  }

  lemma OthersAreOthers(n: nat)
    ensures InOrder(PushCalls(n), 0) && |PushCalls(n)| == n + 4
    ensures PushCalls(n)[1] == Call("a", 0) && PushCalls(n)[n + 2] == Call("z", IDLE)
      && PushCalls(n)[n + 3] == Call("a", IDLE)
    ensures forall m | 1 < m < n + 3 :: PushCalls(n)[m].key != "a"
  {
    assert forall i: nat :: Name(i)[0] == 'k';
  }

  /** On a full table "z" spends the shared token, and "a" finds none. */
  lemma SharedIsSpent(s: State)
    requires Filled(s, |s.buckets|) && |s.buckets| == MAX_TRACKED
    ensures
      var r := Tokens(SLOW);
      !Allow(r, Allow(r, s, "z", IDLE).0, "a", IDLE).1.allowed
  {
    var r := Tokens(SLOW);
    NotNamed(s, |s.buckets|, "z");
    NotNamed(s, |s.buckets|, "a");
    var spent := s.(shared := Bucket(0, IDLE), overflow := true);
    assert Allow(r, s, "z", IDLE).0 == spent;
    assert !Own(spent, "a", IDLE);
  }

  /** The wait was long enough and nothing was charged to the caller's bucket, and yet it is refused. */
  lemma PushedOutIsRefused(n: nat)
    requires n == MAX_TRACKED
    ensures
      var r, calls := Tokens(SLOW), PushCalls(n);
      var s := Fresh(r, 0);
      && InOrder(calls, 0) && calls[n + 3].key == calls[1].key
      && Quiet(r, s, calls, 1, n + 3) && !AnswerAt(r, s, calls, 1).allowed
      && calls[1].now + RetryAfter(AnswerAt(r, s, calls, 1)) * SECOND <= calls[n + 3].now
      && !AnswerAt(r, s, calls, n + 3).allowed
  {
    var r, calls := Tokens(SLOW), PushCalls(n);
    var s := Fresh(r, 0);
    OthersAreOthers(n);
    SpentAndRefused(n);
    assert !AnswerAt(r, s, calls, n + 3).allowed by {
      OthersFill(n, n);
      SharedIsSpent(At(r, s, calls, n + 2));
    }
  }

  lemma NotNamed(s: State, n: nat, key: string)
    requires Filled(s, n) && |key| == 1 && key[0] != 'k'
    ensures key !in s.buckets
  {
    assert forall i: nat :: Name(i)[0] == 'k';
  }

  // ----- the code -----

  class Limiter {
    const limits: Limits
    var buckets: map<string, Bucket>
    var shared: Bucket
    var sweptAt: int
    var overflow: bool

    constructor (limits: Limits, start: int)
      ensures this.limits == limits && Now() == Fresh(Tokens(limits), start)
    {
      this.limits := limits;
      buckets, shared, sweptAt, overflow := map[], Bucket(limits.burst * ONE, start), start, false;
    }

    function Now(): State
      reads this
    {
      State(buckets, shared, sweptAt, overflow)
    }

    method Sweep(now: int)
      modifies this
      ensures Now() == Swept(old(Now()), now)
    {
      if now - sweptAt < IDLE { return; }
      sweptAt := now;
      var pending := buckets.Keys;
      while pending != {}
        invariant pending <= old(buckets).Keys
        invariant buckets == map k | k in old(buckets) && (k in pending || !Forgotten(old(buckets)[k], now)) ::
          old(buckets)[k]
        invariant shared == old(shared) && sweptAt == now && overflow == old(overflow)
      {
        var key :| key in pending;
        pending := pending - {key};
        if now - buckets[key].seenAt >= IDLE {
          buckets := buckets - {key};
        }
      }
      assert buckets == Swept(old(Now()), now).buckets;
      if |buckets| < MAX_TRACKED { overflow := false; }
    }

    method AllowCall(key: string, now: int) returns (answer: Answer)
      modifies this
      ensures (Now(), answer) == Allow(Tokens(limits), old(Now()), key, now)
    {
      Sweep(now);
      var own, b := true, shared;
      if key in buckets {
        b := buckets[key];
      } else if |buckets| < MAX_TRACKED {
        b := Bucket(limits.burst * ONE, now);
      } else {
        overflow := true;
        own := false;
      }
      var charged;
      charged, answer := Draw(b, now);
      if own { buckets := buckets[key := charged]; } else { shared := charged; }
    }

    method Draw(b: Bucket, now: int) returns (charged: Bucket, answer: Answer)
      ensures (charged, answer) == Charge(limits, b, now)
    {
      var tokens := b.tokens + (now - b.seenAt) * limits.perSecond;
      if tokens > limits.burst * ONE { tokens := limits.burst * ONE; }
      if tokens < ONE {
        return Bucket(tokens, now), Answer(false, (ONE - tokens) / limits.perSecond + SECOND);
      }
      return Bucket(tokens - ONE, now), Answer(true, 0);
    }
  }
}
