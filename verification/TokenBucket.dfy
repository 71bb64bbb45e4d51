/** The rate limit of `RaspLoggerEntry`: a bucket of `log.maxburst` tokens, refilled by the minute. */
module TokenBucket {

  const REFILL_INTERVAL := 60000
  const INT_RANGE := 0x1_0000_0000
  const INT_LIMIT := 0x8000_0000

  /** What storing a wider value in a C `int` leaves. */
  function ToInt(x: int): int {
    (x + INT_LIMIT) % INT_RANGE - INT_LIMIT
  }

  datatype Bucket = Bucket(tokens: int, last: int)

  /** The refill at time `now`; the amount is computed wide and stored in an `int`. */
  function Refill(b: Bucket, maxburst: int, now: int): int {
    if now - b.last > REFILL_INTERVAL then
      var amount := ToInt((now - b.last) / REFILL_INTERVAL * maxburst);
      var sum := ToInt(b.tokens + amount);
      if sum > maxburst then ToInt(maxburst) else sum
    else b.tokens
  }

  /** One request: refill at `now`, then take a token, stamped with the clock read again at `now2`. */
  function Admits(b: Bucket, maxburst: int, now: int): bool {
    Refill(b, maxburst, now) > 0
  }

  function Next(b: Bucket, maxburst: int, now: int, now2: int): Bucket {
    var tokens := Refill(b, maxburst, now);
    if tokens > 0 then Bucket(tokens - 1, now2) else Bucket(tokens, b.last)
  }

  class RaspLoggerEntry {
    var initialized: bool
    var accessable: bool
    var level: int
    var availableToken: int
    var lastLoggedTime: int

    ghost function View(): Bucket
      reads this
    {
      Bucket(availableToken, lastLoggedTime)
    }

    constructor (level: int)
      ensures !initialized && !accessable && this.level == level && View() == Bucket(0, 0)
    {
      this.level := level;
      initialized, accessable, availableToken, lastLoggedTime := false, false, 0, 0;
    }

    method Init(maxburst: int, now: int, folderReady: bool)
      modifies this
      ensures initialized && level == old(level)
      ensures old(initialized) ==> View() == old(View()) && accessable == old(accessable)
      ensures !old(initialized) ==> View() == Bucket(ToInt(maxburst), now) && accessable == folderReady
    {
      if !initialized {
        availableToken := ToInt(maxburst);
        lastLoggedTime := now;
        accessable := folderReady;
        initialized := true;
      }
    }

    method ConsumeTokenIfAvailable(maxburst: int, now: int, now2: int) returns (ok: bool)
      modifies this`availableToken, this`lastLoggedTime
      ensures ok == Admits(old(View()), maxburst, now) && View() == Next(old(View()), maxburst, now, now2)
    {
      if now - lastLoggedTime > REFILL_INTERVAL {
        var refillAmount := ToInt((now - lastLoggedTime) / REFILL_INTERVAL * maxburst);
        var refilled := ToInt(availableToken + refillAmount);
        availableToken := if refilled > maxburst then ToInt(maxburst) else refilled;
      }
      if availableToken <= 0 {
        return false;
      } else {
        availableToken := availableToken - 1;
        lastLoggedTime := now2;
      }
      return true;
    }

    predicate PassesLevel(messageLevel: int)
      reads this
    {
      level >= 0 && level >= messageLevel
    }

    /** The gate at the head of `raw_log`: a message that the folder or the level stops costs no token. */
    method Gate(messageLevel: int, maxburst: int, now: int, now2: int) returns (ok: bool)
      modifies this`availableToken, this`lastLoggedTime
      ensures accessable && PassesLevel(messageLevel) ==>
        ok == Admits(old(View()), maxburst, now) && View() == Next(old(View()), maxburst, now, now2)
      ensures !(accessable && PassesLevel(messageLevel)) ==> !ok && View() == old(View())
    {
      if !accessable {
        return false;
      }
      if !PassesLevel(messageLevel) {
        return false;
      }
      ok := ConsumeTokenIfAvailable(maxburst, now, now2);
    }
  }

  // ----- whole runs

  /** A message that reaches the bucket: the two clock readings. */
  datatype Request = Request(now: int, now2: int)

  /** The clock never runs backwards, from `t` on, and stays at or before `end`. */
  predicate Clock(t: int, requests: seq<Request>, end: int)
    decreases |requests|
  {
    if requests == [] then t <= end
    else t <= requests[0].now <= requests[0].now2 && Clock(requests[0].now2, requests[1..], end)
  }

  function NextAt(b: Bucket, maxburst: int, r: Request): Bucket {
    Next(b, maxburst, r.now, r.now2)
  }

  function Finish(b: Bucket, maxburst: int, requests: seq<Request>): Bucket
    decreases |requests|
  {
    if requests == [] then b else Finish(NextAt(b, maxburst, requests[0]), maxburst, requests[1..])
  }

  function Admitted(b: Bucket, maxburst: int, requests: seq<Request>): nat
    decreases |requests|
  {
    if requests == [] then 0
    else
      var first := if Admits(b, maxburst, requests[0].now) then 1 else 0;
      first + Admitted(NextAt(b, maxburst, requests[0]), maxburst, requests[1..])
  }

  /** Full minutes in a span of time. */
  function Minutes(span: int): nat {
    if span < 0 then 0 else span / REFILL_INTERVAL
  }

  /** `n * m`, added up. */
  function Times(n: nat, m: nat): nat {
    if n == 0 then 0 else m + Times(n - 1, m)
  }

  /** The most that may pass in a span of time: one burst at the start and one for each full minute. */
  function Allowance(maxburst: nat, span: int): nat {
    maxburst + Times(Minutes(span), maxburst)
  }

  lemma {:induction false} TimesIsProduct(n: nat, m: nat)
    ensures Times(n, m) == n * m
  {
    if n > 0 { TimesIsProduct(n - 1, m); }
  }

  lemma {:induction false} TimesAdds(a: nat, b: nat, m: nat)
    ensures Times(a + b, m) == Times(a, m) + Times(b, m)
  {
    if a > 0 { TimesAdds(a - 1, b, m); }
  }

  lemma MinutesAdd(a: int, b: int)
    requires a >= 0 && b >= 0
    ensures Minutes(a) + Minutes(b) <= Minutes(a + b)
  {
  }

  /** Waiting `b` longer allows at least the refill for `b` more. */
  lemma AllowanceGrows(maxburst: nat, a: int, b: int)
    requires a >= 0 && b >= 0
    ensures Allowance(maxburst, a) + Times(Minutes(b), maxburst) <= Allowance(maxburst, a + b)
  {
    MinutesAdd(a, b);
    TimesAdds(Minutes(a), Minutes(b), maxburst);
    TimesAdds(Minutes(a) + Minutes(b), Minutes(a + b) - Minutes(a) - Minutes(b), maxburst);
  }

  lemma ToIntSmall(x: int)
    requires -INT_LIMIT <= x < INT_LIMIT
    ensures ToInt(x) == x
  {
  }

  /** Nothing overflows a C `int` as long as the allowance up to the current time fits in one. */
  lemma RefillExact(b: Bucket, maxburst: nat, now: int)
    requires 0 <= b.tokens <= maxburst && maxburst + Times(Minutes(now - b.last), maxburst) < INT_LIMIT
    ensures var sum := b.tokens + Times(Minutes(now - b.last), maxburst);
      Refill(b, maxburst, now) ==
        if now - b.last <= REFILL_INTERVAL then b.tokens else if sum > maxburst then maxburst else sum
  {
    TimesIsProduct(Minutes(now - b.last), maxburst);
    ToIntSmall(maxburst);
    ToIntSmall(Times(Minutes(now - b.last), maxburst));
    ToIntSmall(b.tokens + Times(Minutes(now - b.last), maxburst));
  }

  // ----- what a message costs

  lemma {:induction false} ClockEnds(t: int, requests: seq<Request>, end: int)
    requires Clock(t, requests, end)
    ensures t <= end
    decreases |requests|
  {
    if requests != [] {
      ClockEnds(requests[0].now2, requests[1..], end);
    }
  }

  /** What the refills of a run add. */
  function Gained(b: Bucket, maxburst: int, requests: seq<Request>): int
    decreases |requests|
  {
    if requests == [] then 0
    else
      var added := Refill(b, maxburst, requests[0].now) - b.tokens;
      added + Gained(NextAt(b, maxburst, requests[0]), maxburst, requests[1..])
  }

  /** Over any run: each message that passes costs one token, and one that is refused costs none. */
  lemma {:induction false} TokensAreConserved(b: Bucket, maxburst: int, requests: seq<Request>)
    ensures Finish(b, maxburst, requests).tokens
         == b.tokens + Gained(b, maxburst, requests) - Admitted(b, maxburst, requests)
    decreases |requests|
  {
    if requests != [] {
      TokensAreConserved(NextAt(b, maxburst, requests[0]), maxburst, requests[1..]);
    }
  }

  /** Within a minute of the last message that passed nothing is refilled: as many messages pass as there are tokens. */
  lemma {:induction false} PassesTheTokens(b: Bucket, maxburst: int, t: int, requests: seq<Request>, end: int)
    requires 0 <= b.tokens && b.last <= t && Clock(t, requests, end) && end - b.last <= REFILL_INTERVAL
    ensures Admitted(b, maxburst, requests) == if |requests| <= b.tokens then |requests| else b.tokens
    ensures Gained(b, maxburst, requests) == 0
    decreases |requests|
  {
    if requests != [] {
      ClockEnds(requests[0].now2, requests[1..], end);
      PassesTheTokens(NextAt(b, maxburst, requests[0]), maxburst, requests[0].now2, requests[1..], end);
    }
  }

  // ----- the bound on every run, wrapped refills included

  lemma ToIntOfSum(x: int, y: int)
    ensures ToInt(x + ToInt(y)) == ToInt(x + y)
  {
    ToIntShifted(x + y, x + ToInt(y), (y + INT_LIMIT) / INT_RANGE);
  }

  lemma ToIntShifted(x: int, y: int, q: int)
    requires x - y == q * 0x1_0000_0000
    ensures ToInt(y) == ToInt(x)
  {
  }

  lemma ToIntBounds(x: int)
    ensures -INT_LIMIT <= ToInt(x) < INT_LIMIT
    ensures x >= -INT_LIMIT ==> ToInt(x) <= x
    ensures ToInt(x) > 0 <==> 0 < x % INT_RANGE < INT_LIMIT
    ensures ToInt(x) >= 0 <==> x % INT_RANGE < INT_LIMIT
  {
  }

  /** What a refill amounts to before anything is cut off. */
  function Due(b: Bucket, maxburst: nat, now: int): int {
    b.tokens + Times(Minutes(now - b.last), maxburst)
  }

  lemma RefillOfDue(b: Bucket, maxburst: nat, now: int)
    ensures now - b.last > REFILL_INTERVAL ==>
              var sum := ToInt(Due(b, maxburst, now));
              Refill(b, maxburst, now) == if sum > maxburst then ToInt(maxburst) else sum
  {
    TimesIsProduct(Minutes(now - b.last), maxburst);
    ToIntOfSum(b.tokens, Times(Minutes(now - b.last), maxburst));
  }

  /** Exactly when a message passes more than a minute after the one that was last to pass. */
  lemma AdmitsExactly(b: Bucket, maxburst: nat, now: int)
    requires now - b.last > REFILL_INTERVAL
    ensures maxburst >= 1 ==> (Admits(b, maxburst, now) <==> 0 < Due(b, maxburst, now) % INT_RANGE < INT_LIMIT)
    ensures Refill(b, maxburst, now) >= 0 <==> Due(b, maxburst, now) % INT_RANGE < INT_LIMIT
  {
    RefillOfDue(b, maxburst, now);
    ToIntBounds(Due(b, maxburst, now));
    if maxburst < INT_LIMIT {
      ToIntSmall(maxburst);
    }
  }

  /** No refill gives more than is due, however it wraps. */
  lemma RefillBounded(b: Bucket, maxburst: nat, now: int)
    requires -INT_LIMIT <= b.tokens <= maxburst && b.last <= now
    ensures -INT_LIMIT <= Refill(b, maxburst, now) <= maxburst
    ensures Refill(b, maxburst, now) <= Due(b, maxburst, now)
  {
    RefillOfDue(b, maxburst, now);
    ToIntBounds(Due(b, maxburst, now));
    ToIntBounds(maxburst);
  }

  /** What was used, and what the bucket holds besides, is covered by the allowance. */
  ghost predicate Within(b: Bucket, maxburst: nat, t0: int, used: nat) {
    && -INT_LIMIT <= b.tokens <= maxburst
    && t0 <= b.last
    && used <= Allowance(maxburst, b.last - t0)
    && used + b.tokens <= Allowance(maxburst, b.last - t0)
  }

  lemma NextWithin(b: Bucket, maxburst: nat, t0: int, used: nat, r: Request)
    requires Within(b, maxburst, t0, used) && b.last <= r.now <= r.now2
    ensures Within(NextAt(b, maxburst, r), maxburst, t0, used + if Admits(b, maxburst, r.now) then 1 else 0)
    ensures NextAt(b, maxburst, r).last <= r.now2
  {
    AllowanceGrows(maxburst, b.last - t0, r.now - b.last);
    AllowanceGrows(maxburst, r.now - t0, r.now2 - r.now);
    RefillBounded(b, maxburst, r.now);
  }

  lemma {:induction false} RunWithin(b: Bucket, maxburst: nat, t0: int, used: nat, t: int, requests: seq<Request>,
                                     end: int)
    requires Within(b, maxburst, t0, used) && b.last <= t && Clock(t, requests, end)
    ensures Within(Finish(b, maxburst, requests), maxburst, t0, used + Admitted(b, maxburst, requests))
    ensures Finish(b, maxburst, requests).last <= end
    decreases |requests|
  {
    if requests == [] {
      ClockEnds(t, requests, end);
    } else {
      var r := requests[0];
      ClockEnds(r.now2, requests[1..], end);
      NextWithin(b, maxburst, t0, used, r);
      var used' := used + if Admits(b, maxburst, r.now) then 1 else 0;
      RunWithin(NextAt(b, maxburst, r), maxburst, t0, used', r.now2, requests[1..], end);
    }
  }

  lemma AllowanceIsProduct(maxburst: nat, span: int)
    requires span >= 0
    ensures Allowance(maxburst, span) == maxburst * (1 + span / REFILL_INTERVAL)
  {
    var n := Minutes(span);
    TimesIsProduct(n, maxburst);
    assert maxburst * (1 + n) == maxburst + n * maxburst;
  }

  /** The bucket as `Init` fills it. */
  function Full(maxburst: nat, t0: int): Bucket {
    Bucket(ToInt(maxburst), t0)
  }

  lemma FullIsWithin(maxburst: nat, t0: int)
    ensures Within(Full(maxburst, t0), maxburst, t0, 0)
  {
    ToIntBounds(maxburst);
  }

  /** By any time `end`, at most `maxburst` messages have passed for the start and for each full minute since, whatever
      wraps; and the bucket never holds more than `maxburst`. */
  lemma AdmittedBound(maxburst: nat, t0: int, requests: seq<Request>, end: int)
    requires Clock(t0, requests, end)
    ensures Admitted(Full(maxburst, t0), maxburst, requests) <= maxburst * (1 + (end - t0) / REFILL_INTERVAL)
    ensures Finish(Full(maxburst, t0), maxburst, requests).tokens <= maxburst
  {
    FullIsWithin(maxburst, t0);
    RunWithin(Full(maxburst, t0), maxburst, t0, 0, t0, requests, end);
    ClockEnds(t0, requests, end);
    var last := Finish(Full(maxburst, t0), maxburst, requests).last;
    AllowanceGrows(maxburst, last - t0, end - last);
    AllowanceIsProduct(maxburst, end - t0);
  }

  // ----- the promise to a quiet sender

  /** While the allowance fits in an `int` the bucket never goes below zero. */
  lemma {:induction false} RunKeepsTokens(b: Bucket, maxburst: nat, t0: int, t: int, requests: seq<Request>, end: int)
    requires 0 <= b.tokens <= maxburst && t0 <= b.last <= t && Clock(t, requests, end)
    requires Allowance(maxburst, end - t0) < INT_LIMIT
    ensures 0 <= Finish(b, maxburst, requests).tokens <= maxburst
    ensures t0 <= Finish(b, maxburst, requests).last <= end
    decreases |requests|
  {
    if requests == [] {
      ClockEnds(t, requests, end);
    } else {
      var r := requests[0];
      ClockEnds(r.now2, requests[1..], end);
      MinutesFit(maxburst, r.now - b.last, end - t0);
      RefillExact(b, maxburst, r.now);
      RunKeepsTokens(NextAt(b, maxburst, r), maxburst, t0, r.now2, requests[1..], end);
    }
  }

  lemma MinutesFit(maxburst: nat, a: int, b: int)
    requires 0 <= a <= b
    ensures maxburst + Times(Minutes(a), maxburst) <= Allowance(maxburst, b)
  {
    AllowanceGrows(maxburst, b - a, a);
  }

  /** More than a minute after the last message that passed, the next one passes exactly when what is due, cut to an
      `int`, is positive; in any run, from a full bucket. */
  lemma QuietMinuteAdmits(maxburst: nat, t0: int, requests: seq<Request>, now: int)
    requires maxburst >= 1 && Clock(t0, requests, now)
    requires now - LastPassed(Full(maxburst, t0), maxburst, requests, t0) > REFILL_INTERVAL
    ensures var b := Finish(Full(maxburst, t0), maxburst, requests);
      Admits(b, maxburst, now) <==> 0 < Due(b, maxburst, now) % INT_RANGE < INT_LIMIT
    ensures Allowance(maxburst, now - t0) < INT_LIMIT ==>
            Admits(Finish(Full(maxburst, t0), maxburst, requests), maxburst, now)
  {
    StampIsLastPassed(Full(maxburst, t0), maxburst, requests);
    var b := Finish(Full(maxburst, t0), maxburst, requests);
    AdmitsExactly(b, maxburst, now);
    if Allowance(maxburst, now - t0) < INT_LIMIT {
      ClockEnds(t0, requests, now);
      MinutesFit(maxburst, 0, now - t0);
      ToIntSmall(maxburst);
      RunKeepsTokens(Full(maxburst, t0), maxburst, t0, t0, requests, now);
      MinutesFit(maxburst, now - b.last, now - t0);
      RefillExact(b, maxburst, now);
    }
  }

  /** The clock reading at the last message that passed, or `t0` when none did. */
  function LastPassed(b: Bucket, maxburst: int, requests: seq<Request>, t0: int): int
    decreases |requests|
  {
    if requests == [] then t0
    else LastPassed(NextAt(b, maxburst, requests[0]), maxburst, requests[1..],
                    if Admits(b, maxburst, requests[0].now) then requests[0].now2 else t0)
  }

  /** The stamp that refills are counted from is the time of the last message that passed. */
  lemma {:induction false} StampIsLastPassed(b: Bucket, maxburst: int, requests: seq<Request>)
    ensures Finish(b, maxburst, requests).last == LastPassed(b, maxburst, requests, b.last)
    decreases |requests|
  {
    if requests != [] {
      StampIsLastPassed(NextAt(b, maxburst, requests[0]), maxburst, requests[1..]);
    }
  }

  /** The same request, `n` times. */
  function Repeated(r: Request, n: nat): seq<Request> {
    if n == 0 then [] else [r] + Repeated(r, n - 1)
  }

  lemma {:induction false} BurstDrains(k: nat, maxburst: nat, t: int)
    requires k <= maxburst
    ensures Clock(t, Repeated(Request(t, t), k), t)
    ensures Finish(Bucket(k, t), maxburst, Repeated(Request(t, t), k)) == Bucket(0, t)
    ensures LastPassed(Bucket(k, t), maxburst, Repeated(Request(t, t), k), t) == t
  {
    if k > 0 {
      BurstDrains(k - 1, maxburst, t);
      var rs := Repeated(Request(t, t), k);
      assert rs[0] == Request(t, t) && rs[1..] == Repeated(Request(t, t), k - 1);
      assert NextAt(Bucket(k, t), maxburst, rs[0]) == Bucket(k - 1, t);
    }
  }

  /** A burst of 2^20 messages uses the bucket up; 2048 idle minutes later the refill wraps, the next message does not
      pass, and the bucket is far below zero. */
  lemma OverflowStarves(t0: int)
    ensures var m, now := 0x10_0000, t0 + 2048 * REFILL_INTERVAL;
      var b := Finish(Full(m, t0), m, Repeated(Request(t0, t0), m));
      && Clock(t0, Repeated(Request(t0, t0), m), now)
      && !Admits(b, m, now) && Next(b, m, now, now).tokens == -0x8000_0000
  {
    var m, now := 0x10_0000, t0 + 2048 * REFILL_INTERVAL;
    ToIntSmall(m);
    BurstDrains(m, m, t0);
    ClockLater(t0, Repeated(Request(t0, t0), m), t0, now);
    DrainedStarves(t0);
  }

  lemma DrainedStarves(t0: int)
    ensures var b, now := Bucket(0, t0), t0 + 2048 * REFILL_INTERVAL;
      !Admits(b, 0x10_0000, now) && Next(b, 0x10_0000, now, now).tokens == -0x8000_0000
  {
    assert (2048 * REFILL_INTERVAL) / REFILL_INTERVAL == 2048;
  }

  lemma {:induction false} ClockLater(t: int, requests: seq<Request>, end: int, later: int)
    requires Clock(t, requests, end) && end <= later
    ensures Clock(t, requests, later)
    decreases |requests|
  {
    if requests != [] {
      ClockLater(requests[0].now2, requests[1..], end, later);
    }
  }

  /** Messages logged one after the other through an entry that lets them reach the bucket: the run of the bucket. */
  method LogAll(entry: RaspLoggerEntry, messageLevel: int, maxburst: int, requests: seq<Request>) returns (passed: nat)
    requires entry.accessable && entry.PassesLevel(messageLevel)
    modifies entry`availableToken, entry`lastLoggedTime
    ensures passed == Admitted(old(entry.View()), maxburst, requests)
    ensures entry.View() == Finish(old(entry.View()), maxburst, requests)
  {
    passed := 0;
    for i := 0 to |requests|
      invariant Admitted(old(entry.View()), maxburst, requests)
             == passed + Admitted(entry.View(), maxburst, requests[i..])
      invariant Finish(old(entry.View()), maxburst, requests) == Finish(entry.View(), maxburst, requests[i..])
    {
      assert requests[i..][0] == requests[i] && requests[i..][1..] == requests[i + 1..];
      var ok := entry.Gate(messageLevel, maxburst, requests[i].now, requests[i].now2);
      if ok {
        passed := passed + 1;
      }
    }
  }
}
