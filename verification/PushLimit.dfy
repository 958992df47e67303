/**
 * The push budget (internal/push/ratelimit.go:18-66): a token bucket for each origin, sized from
 * its requests a day. Times are in seconds, and they and tokens are real numbers.
 */
module PushLimit {
  import opened Basics
  import opened Rates

  type Origin = string

  const MAX_BURST: int := 10

  datatype Bucket = Bucket(tokens: real, last: real)

  function Burst(qpd: int): (b: real)
    requires qpd > 0
    ensures 1.0 <= b <= 10.0
  {
    (if qpd < MAX_BURST then qpd else MAX_BURST) as real
  }

  /** Tokens a second. */
  function Rate(qpd: int): (r: real)
    ensures qpd > 0 ==> r > 0.0
  {
    qpd as real / 86400.0
  }

  /** The bucket as a call finds it, before it spends: filled up since the last, and held to the
      burst of the allowance now in force. */
  function Filled(b: Option<Bucket>, qpd: int, now: real): Bucket
    requires qpd > 0
  {
    if b.None? then Bucket(Burst(qpd), now)
    else if now > b.value.last then
      Bucket(Smaller(Burst(qpd), b.value.tokens + Over(Rate(qpd), now - b.value.last)), now)
    else Bucket(Smaller(b.value.tokens, Burst(qpd)), b.value.last)
  }

  function Ceil(x: real): int {
    -((-x).Floor)
  }

  /** Whole seconds until a token is due. */
  function Wait(qpd: int, tokens: real): int
    requires qpd > 0
  {
    Ceil((1.0 - tokens) / Rate(qpd))
  }

  datatype Answer = Allowed | Refused(wait: int)

  function AnswerOf(b: Option<Bucket>, qpd: int, now: real): Answer {
    if qpd <= 0 then Allowed
    else
      var f := Filled(b, qpd, now);
      if f.tokens < 1.0 then Refused(Wait(qpd, f.tokens)) else Allowed
  }

  /** The bucket after the call; an unlimited origin has none and leaves what there is. */
  function Spend(b: Option<Bucket>, qpd: int, now: real): Option<Bucket> {
    if qpd <= 0 then b
    else
      var f := Filled(b, qpd, now);
      Some(if f.tokens < 1.0 then f else Bucket(f.tokens - 1.0, f.last))
  }

  function Find(buckets: map<Origin, Bucket>, o: Origin): Option<Bucket> {
    if o in buckets then Some(buckets[o]) else None
  }

  class Limiter {
    var buckets: map<Origin, Bucket>

    constructor ()
      ensures buckets == map[]
    {
      buckets := map[];
    }

    /** allow. */
    method Allow(origin: Origin, qpd: int, now: real) returns (a: Answer)
      modifies this
      ensures a == AnswerOf(Find(old(buckets), origin), qpd, now)
      ensures Find(buckets, origin) == Spend(Find(old(buckets), origin), qpd, now)
      ensures forall o | o != origin :: Find(buckets, o) == Find(old(buckets), o)
    {
      if qpd <= 0 {
        return Allowed;
      }
      var burst := Burst(qpd);
      var b := Bucket(burst, now);
      if origin in buckets {
        b := buckets[origin];
      }
      if now > b.last {
        b := Bucket(Smaller(burst, b.tokens + Over(Rate(qpd), now - b.last)), now);
      }
      b := b.(tokens := Smaller(b.tokens, burst));
      if b.tokens < 1.0 {
        buckets := buckets[origin := b];
        return Refused(Wait(qpd, b.tokens));
      }
      buckets := buckets[origin := b.(tokens := b.tokens - 1.0)];
      return Allowed;
    }
  }

  // ----- the balance stays between nothing and a burst

  ghost predicate Sound(b: Option<Bucket>) {
    b.Some? ==> 0.0 <= b.value.tokens <= 10.0
  }

  /** Whatever allowances the calls come with: the balance is never negative, and after a call never
      above the burst of that call's allowance. */
  lemma {:induction false} BalanceIsBounded(b: Option<Bucket>, qpd: int, now: real)
    requires Sound(b)
    ensures Sound(Spend(b, qpd, now))
    ensures qpd > 0 ==> Spend(b, qpd, now).value.tokens <= Burst(qpd)
  {
    if qpd > 0 && b.Some? { Spread(Rate(qpd), now, b.value.last); Spread(Rate(qpd), b.value.last, now); }
  }

  // ----- any run of calls

  datatype Call = Call(origin: Origin, qpd: int, now: real)

  function After(buckets: map<Origin, Bucket>, calls: seq<Call>, o: Origin): Option<Bucket> {
    if calls == [] then Find(buckets, o)
    else
      var n := |calls| - 1;
      var b := After(buckets, calls[..n], o);
      if calls[n].origin == o then Spend(b, calls[n].qpd, calls[n].now) else b
  }

  function Of(calls: seq<Call>, o: Origin): seq<Call> {
    if calls == [] then []
    else
      var n := |calls| - 1;
      Of(calls[..n], o) + if calls[n].origin == o then [calls[n]] else []
  }

  /** Origins do not affect each other: after any calls an origin's bucket is what its own calls
      alone would have made it, and so are the answers it gets. */
  lemma {:induction false} OriginsAreIndependent(buckets: map<Origin, Bucket>, calls: seq<Call>, o: Origin)
    ensures After(buckets, calls, o) == After(buckets, Of(calls, o), o)
  {
    if calls != [] {
      var n := |calls| - 1;
      OriginsAreIndependent(buckets, calls[..n], o);
      var mine := Of(calls[..n], o);
      if calls[n].origin == o {
        var all := mine + [calls[n]];
        assert all[..|mine|] == mine && all[|mine|] == calls[n];
      } else {
        assert mine + [] == mine;
      }
    }
  }

  /** The last limited allowance an origin called with; 0 when it never did. */
  function InForce(calls: seq<Call>, o: Origin): int {
    if calls == [] then 0
    else
      var n := |calls| - 1;
      if calls[n].origin == o && calls[n].qpd > 0 then calls[n].qpd else InForce(calls[..n], o)
  }

  /** Over any run of calls, of any origins and with allowances that change: an origin's balance is
      never negative, never above ten, and never above the burst of the allowance in force. */
  lemma {:induction false} RunIsBounded(buckets: map<Origin, Bucket>, calls: seq<Call>, o: Origin)
    requires forall q | q in buckets :: Sound(Some(buckets[q]))
    ensures var b, q := After(buckets, calls, o), InForce(calls, o);
            Sound(b) && (q > 0 ==> b.Some? && b.value.tokens <= Burst(q))
  {
    if calls != [] {
      var n := |calls| - 1;
      RunIsBounded(buckets, calls[..n], o);
      BalanceIsBounded(After(buckets, calls[..n], o), calls[n].qpd, calls[n].now);
    }
  }

  // ----- the budget, for one origin and a fixed allowance

  /** The bucket after the first k of the times. */
  function At(b: Option<Bucket>, qpd: int, times: seq<real>, k: nat): Option<Bucket>
    requires k <= |times|
  {
    if k == 0 then b else Spend(At(b, qpd, times, k - 1), qpd, times[k - 1])
  }

  /** How many of calls j to k-1 are allowed. */
  function Granted(b: Option<Bucket>, qpd: int, times: seq<real>, j: nat, k: nat): nat
    requires j <= k <= |times|
    decreases k - j
  {
    if j == k then 0
    else Granted(b, qpd, times, j, k - 1)
         + if AnswerOf(At(b, qpd, times, k - 1), qpd, times[k - 1]).Allowed? then 1 else 0
  }

  /** After call j and through call k, each grant is paid for by the balance left after call j or by
      time. */
  lemma {:induction false} GrantsArePaid(b: Option<Bucket>, qpd: int, times: seq<real>, j: nat, k: nat, until: real)
    requires qpd > 0 && 0 < j <= k <= |times| && forall i | j <= i < k :: times[i] <= until
    ensures var s, t := At(b, qpd, times, j).value, At(b, qpd, times, k).value;
            && Granted(b, qpd, times, j, k) as real + t.tokens
               <= s.tokens + (Over(Rate(qpd), t.last) - Over(Rate(qpd), s.last))
            && s.last <= t.last && (t.last <= until || t.last == s.last)
    decreases k - j
  {
    if j < k {
      GrantsArePaid(b, qpd, times, j, k - 1, until);
      Spread(Rate(qpd), times[k - 1], At(b, qpd, times, k - 1).value.last);
    }
  }

  lemma {:induction false} GrantedSplits(b: Option<Bucket>, qpd: int, times: seq<real>, j: nat, m: nat, k: nat)
    requires j <= m <= k <= |times|
    ensures Granted(b, qpd, times, j, k) == Granted(b, qpd, times, j, m) + Granted(b, qpd, times, m, k)
    decreases k - m
  {
    if m < k { GrantedSplits(b, qpd, times, j, m, k - 1); }
  }

  lemma {:induction false} AtIsSound(b: Option<Bucket>, qpd: int, times: seq<real>, k: nat)
    requires Sound(b) && k <= |times|
    ensures Sound(At(b, qpd, times, k))
  {
    if k > 0 {
      AtIsSound(b, qpd, times, k - 1);
      BalanceIsBounded(At(b, qpd, times, k - 1), qpd, times[k - 1]);
    }
  }

  /** The budget. Of any calls in a row that all come within some seconds of a moment, whatever came
      before them, the number allowed is at most a burst and what that time brings; and this holds
      even of a clock that goes back. */
  lemma {:induction false} BudgetHolds(b: Option<Bucket>, qpd: int, times: seq<real>, j: nat, k: nat, from: real,
          seconds: real)
    requires qpd > 0 && Sound(b) && j <= k <= |times| && 0.0 <= seconds
    requires forall i | j <= i < k :: from <= times[i] <= from + seconds
    ensures Granted(b, qpd, times, j, k) as real <= Burst(qpd) + Over(Rate(qpd), seconds)
  {
    Spread(Rate(qpd), 0.0, seconds);
    assert Over(Rate(qpd), 0.0) == 0.0;
    if j < k {
      var s, t := At(b, qpd, times, j + 1).value, At(b, qpd, times, k).value;
      GrantedSplits(b, qpd, times, j, j + 1, k);
      FirstIsPaid(b, qpd, times, j);
      GrantsArePaid(b, qpd, times, j + 1, k, from + seconds);
      AtIsSound(b, qpd, times, k);
      Spread(Rate(qpd), t.last, s.last);
      Spread(Rate(qpd), t.last - s.last, seconds);
    }
  }

  lemma {:induction false} FirstIsPaid(b: Option<Bucket>, qpd: int, times: seq<real>, j: nat)
    requires qpd > 0 && j < |times|
    ensures var s := At(b, qpd, times, j + 1).value;
            Granted(b, qpd, times, j, j + 1) as real + s.tokens <= Burst(qpd) && times[j] <= s.last
  {
    assert Granted(b, qpd, times, j, j) == 0;
  }

  // ----- and no less than the budget

  /** A log configured without an allowance is never refused, and has no bucket. */
  lemma {:induction false} UnlimitedIsAllowed(b: Option<Bucket>, qpd: int, now: real)
    requires qpd <= 0
    ensures AnswerOf(b, qpd, now) == Allowed && Spend(b, qpd, now) == b
  {
  }

  /** The origin is new, or has been idle for a day. */
  ghost predicate Rested(b: Option<Bucket>, now: real) {
    b.None? || (0.0 <= b.value.tokens && b.value.last + 86400.0 <= now)
  }

  lemma {:induction false} RestedIsFull(b: Option<Bucket>, qpd: int, now: real)
    requires qpd > 0 && Rested(b, now)
    ensures Filled(b, qpd, now) == Bucket(Min(qpd, 10) as real, now)
  {
    if b.Some? {
      assert Over(Rate(qpd), 86400.0) == qpd as real;
      Spread(Rate(qpd), 86400.0, now - b.value.last);
    }
  }

  /** A new origin, or one idle for a day, is allowed as many calls at one moment as it has in a day, up
      to ten, and no more. */
  lemma {:induction false} BurstIsAllowed(b: Option<Bucket>, qpd: int, times: seq<real>, now: real, k: nat)
    requires qpd > 0 && Rested(b, now) && k <= |times| && forall i | 0 <= i < k :: times[i] == now
    ensures Granted(b, qpd, times, 0, k) == Min(k, Min(qpd, 10))
    ensures k > 0 ==> At(b, qpd, times, k) == Some(Bucket((Min(qpd, 10) - Min(k, Min(qpd, 10))) as real, now))
    decreases k
  {
    if k > 0 {
      BurstIsAllowed(b, qpd, times, now, k - 1);
      RestedIsFull(b, qpd, now);
    }
  }

  /** A caller that spreads its day's calls evenly is never refused. */
  lemma {:induction false} SpacedCallsAreAllowed(b: Option<Bucket>, qpd: int, times: seq<real>, k: nat)
    requires qpd > 0 && Sound(b) && k <= |times|
    requires b.Some? && |times| > 0 ==> b.value.last + 86400.0 / qpd as real <= times[0]
    requires forall i | 0 < i < |times| :: times[i - 1] + 86400.0 / qpd as real <= times[i]
    ensures Granted(b, qpd, times, 0, k) == k
    ensures k > 0 ==> At(b, qpd, times, k).Some? && At(b, qpd, times, k).value.last == times[k - 1]
    decreases k
  {
    if k > 0 {
      SpacedCallsAreAllowed(b, qpd, times, k - 1);
      AtIsSound(b, qpd, times, k - 1);
      var c := At(b, qpd, times, k - 1);
      if c.Some? {
        Takes(Rate(qpd), 0.0, 1.0);
        assert Over(Rate(qpd), 0.0) == 0.0;
        OneADay(qpd);
        Spread(Rate(qpd), 86400.0 / qpd as real, times[k - 1] - c.value.last);
      }
    }
  }

  lemma {:induction false} OneADay(qpd: int)
    requires qpd > 0
    ensures 86400.0 / qpd as real > 0.0 && Over(Rate(qpd), 86400.0 / qpd as real) == 1.0
  {
    var q := qpd as real;
    assert 86400.0 / q * (q / 86400.0) == 1.0;
  }

  // ----- Retry-After

  lemma {:induction false} CeilBounds(x: real)
    ensures x <= Ceil(x) as real < x + 1.0
  {
  }

  lemma {:induction false} WaitBrings(qpd: int, tokens: real)
    requires qpd > 0
    ensures Over(Rate(qpd), Wait(qpd, tokens) as real) >= 1.0 - tokens
    ensures Over(Rate(qpd), Wait(qpd, tokens) as real - 1.0) < 1.0 - tokens
  {
    var x := (1.0 - tokens) / Rate(qpd);
    CeilBounds(x);
    assert Over(Rate(qpd), x) == 1.0 - tokens;
    Spread(Rate(qpd), x, Wait(qpd, tokens) as real);
    Spread(Rate(qpd), x, Wait(qpd, tokens) as real - 1.0);
  }

  /** A refused caller that comes back, no other having come, is allowed once the advertised wait has
      passed, and is still refused when a second or more of it remains. The clock must not have
      stood before the bucket's time at the refusal. */
  lemma {:induction false} WaitIsExact(b: Option<Bucket>, qpd: int, now: real, again: real)
    requires AnswerOf(b, qpd, now).Refused? && (b.Some? ==> b.value.last <= now) && now <= again
    ensures var w, c := AnswerOf(b, qpd, now).wait as real, AnswerOf(Spend(b, qpd, now), qpd, again);
            && (again >= now + w ==> c.Allowed?)
            && (again <= now + w - 1.0 ==> c.Refused?)
  {
    var f := Filled(b, qpd, now);
    var w := Wait(qpd, f.tokens) as real;
    WaitBrings(qpd, f.tokens);
    Spread(Rate(qpd), w, again - now);
    Spread(Rate(qpd), again - now, w - 1.0);
  }

  /** The seconds until the balance a call finds is a whole token. */
  function Due(b: Option<Bucket>, qpd: int, now: real): real
    requires qpd > 0
  {
    (1.0 - Filled(b, qpd, now).tokens) / Rate(qpd)
  }

  /** Whatever the clock did, the promise to a refused caller is kept exactly when the clock stood no
      further behind the bucket's own time than the rounding up to whole seconds makes good. */
  lemma {:induction false} PromiseKeptExactly(b: Option<Bucket>, qpd: int, now: real)
    requires AnswerOf(b, qpd, now).Refused?
    ensures b.Some? && 0.0 <= Ceil(Due(b, qpd, now)) as real - Due(b, qpd, now) < 1.0
    ensures var w := AnswerOf(b, qpd, now).wait as real;
            AnswerOf(Spend(b, qpd, now), qpd, now + w).Allowed?
            <==> b.value.last - now <= Ceil(Due(b, qpd, now)) as real - Due(b, qpd, now)
  {
    var f, x := Filled(b, qpd, now), Due(b, qpd, now);
    var passed := now + Ceil(x) as real - f.last;
    CeilBounds(x);
    assert Over(Rate(qpd), x) == 1.0 - f.tokens;
    assert Over(Rate(qpd), 0.0) == 0.0;
    Spread(Rate(qpd), x, passed);
    Spread(Rate(qpd), passed, x);
    Spread(Rate(qpd), 0.0, passed);
  }

  /** The promise can fail though the clock never goes back. Of two requests that read it, the later
      by any delay, the later takes the lock first and spends the one token; the earlier is refused,
      told a wait, and refused again when it comes back after it. */
  lemma {:induction false} OutOfOrderBreaksPromise(now: real, delay: real)
    requires delay > 0.0
    ensures var b := Spend(None, 1, now + delay);
            && AnswerOf(None, 1, now + delay).Allowed?
            && AnswerOf(b, 1, now) == Refused(86400)
            && AnswerOf(Spend(b, 1, now), 1, now + 86400.0).Refused?
  {
    assert Rate(1) == 1.0 / 86400.0;
    var b := Spend(None, 1, now + delay);
    assert b == Some(Bucket(0.0, now + delay));
    assert Due(b, 1, now) == 86400.0;
    PromiseKeptExactly(b, 1, now);
  }
}
