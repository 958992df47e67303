/**
 * The download cap (internal/netmeter/limit.go:82-136): one bucket for the whole process. Times are
 * in seconds, and they, tokens and rates are real numbers.
 */
module LinkCap {
  import opened Basics
  import opened Rates

  /** What SetLimit fixes. */
  datatype Config = Config(rate: real, burst: real)

  /** The balance, and when it was last brought up to date. */
  datatype State = State(tokens: real, last: real)

  /** SetLimit's bucket, for a positive rate: a fiftieth of a second's worth, at least 64 KiB. */
  function Limited(bytesPerSec: real): (g: Config)
    requires bytesPerSec > 0.0
    ensures g.rate == bytesPerSec && g.burst >= 65536.0 && g.burst >= bytesPerSec / 50.0
    ensures g.burst == 65536.0 || g.burst == bytesPerSec / 50.0
  {
    var burst := bytesPerSec / 50.0;
    Config(bytesPerSec, if burst < 65536.0 then 65536.0 else burst)
  }

  /** The balance after a call at a time, of n bytes. */
  function Charge(g: Config, s: State, now: real, n: nat): State {
    State(Smaller(g.burst, s.tokens + Over(g.rate, now - s.last)) - n as real, now)
  }

  /** c is when the caller is let go: at once, or when its deficit is slept off. */
  ghost predicate Due(g: Config, s: State, c: real) {
    if s.tokens < 0.0 then Over(g.rate, c) == Over(g.rate, s.last) - s.tokens else c == s.last
  }

  class Bucket {
    const g: Config
    var tokens: real
    var last: real

    constructor (bytesPerSec: real, now: real)
      requires bytesPerSec > 0.0
      ensures g == Limited(bytesPerSec) && Now() == State(g.burst, now)
    {
      g := Limited(bytesPerSec);
      tokens, last := Limited(bytesPerSec).burst, now;
    }

    function Now(): State
      reads this
    {
      State(tokens, last)
    }

    /** take: charges, and returns how long to sleep. */
    method Take(now: real, n: nat) returns (sleep: real)
      requires g.rate > 0.0
      modifies this`tokens, this`last
      ensures Now() == Charge(g, old(Now()), now, n)
      ensures sleep >= 0.0 && Due(g, Now(), now + sleep)
    {
      tokens := tokens + Over(g.rate, now - last);
      last := now;
      if tokens > g.burst {
        tokens := g.burst;
      }
      tokens := tokens - n as real;
      var deficit := -tokens;
      if deficit <= 0.0 {
        return 0.0;
      }
      Takes(g.rate, now, deficit);
      return deficit / g.rate;
    }
  }

  // ----- any run of calls

  datatype Call = Call(now: real, n: nat)

  /** Call i takes state i to state i+1, the clock not going back. */
  ghost predicate StepAt(g: Config, ss: seq<State>, calls: seq<Call>, i: nat)
    requires |ss| == |calls| + 1 && i < |calls|
  {
    ss[i].last <= calls[i].now && ss[i + 1] == Charge(g, ss[i], calls[i].now, calls[i].n)
  }

  /** The states between the calls. */
  ghost predicate Trace(g: Config, ss: seq<State>, calls: seq<Call>) {
    && g.rate > 0.0 && g.burst >= 0.0
    && |ss| == |calls| + 1 && ss[0].tokens <= g.burst
    && forall i: nat | i < |calls| :: StepAt(g, ss, calls, i)
  }

  /** The bytes of calls j to k-1. */
  function Charged(calls: seq<Call>, j: nat, k: nat): nat
    requires j <= k <= |calls|
    decreases k - j
  {
    if j == k then 0 else Charged(calls, j, k - 1) + calls[k - 1].n
  }

  /** There is one moment the caller is let go. */
  lemma {:induction false} DueExists(g: Config, s: State) returns (c: real)
    requires g.rate > 0.0
    ensures Due(g, s, c) && s.last <= c
  {
    c := s.last;
    if s.tokens < 0.0 {
      Takes(g.rate, s.last, -s.tokens);
      c := s.last + -s.tokens / g.rate;
    }
  }

  /** What the bucket holds when a call comes: what it gained since, up to the burst. */
  function Ready(g: Config, s: State, now: real): real {
    var full := s.tokens + (now - s.last) * g.rate;
    if full > g.burst then g.burst else full
  }

  /** How many of n bytes it does not hold. */
  function Missing(g: Config, s: State, now: real, n: nat): real {
    if n as real <= Ready(g, s, now) then 0.0 else n as real - Ready(g, s, now)
  }

  /** Missing bytes are slept off in the time they take at the rate. */
  lemma {:induction false} MissingTakes(g: Config, last: real, missing: real, c: real)
    requires g.rate > 0.0 && missing > 0.0
    ensures Due(g, State(-missing, last), c) <==> c == last + missing / g.rate
  {
    Takes(g.rate, last, missing);
    Spread(g.rate, c, last + missing / g.rate);
    Spread(g.rate, last + missing / g.rate, c);
  }

  /** When a caller is let go: after the time the bytes the bucket does not hold take at the rate, so at
      once exactly when it holds as many as are asked for. */
  lemma {:induction false} CompletionIsExact(g: Config, s: State, now: real, n: nat, c: real)
    requires g.rate > 0.0
    ensures Due(g, Charge(g, s, now, n), c) <==> c == now + Missing(g, s, now, n) / g.rate
    ensures Missing(g, s, now, n) / g.rate == 0.0 <==> n as real <= Ready(g, s, now)
  {
    var missing := Missing(g, s, now, n);
    assert Charge(g, s, now, n) == State(Ready(g, s, now) - n as real, now);
    if missing > 0.0 {
      MissingTakes(g, now, missing, c);
      Takes(g.rate, 0.0, missing);
      assert Over(g.rate, 0.0) == 0.0;
    }
  }

  /** A reader that comes to an idle bucket is not held for a chunk of 32 KB, whatever the limit. */
  lemma {:induction false} IdleReaderIsNotHeld(bytesPerSec: real, s: State, now: real, n: nat, c: real)
    requires bytesPerSec > 0.0 && n <= 32768
    requires s.tokens + (now - s.last) * bytesPerSec >= 65536.0
    requires Due(Limited(bytesPerSec), Charge(Limited(bytesPerSec), s, now, n), c)
    ensures c == now
  {
    CompletionIsExact(Limited(bytesPerSec), s, now, n, c);
  }

  /** A later call is never let go earlier. */
  lemma {:induction false} ChargeOrders(g: Config, s: State, now: real, n: nat, c: real, d: real)
    requires g.rate > 0.0 && s.last <= now && Due(g, s, c) && Due(g, Charge(g, s, now, n), d)
    ensures c <= d
  {
    Spread(g.rate, now, s.last);
    Spread(g.rate, c, d);
    Spread(g.rate, now, d);
    Spread(g.rate, c, now);
  }

  /** Callers are let go in the order of their calls. */
  lemma {:induction false} CompletionsAscend(g: Config, ss: seq<State>, calls: seq<Call>, j: nat, k: nat, c: real,
          d: real)
    requires Trace(g, ss, calls) && j < k <= |calls| && Due(g, ss[j], c) && Due(g, ss[k], d)
    ensures c <= d
    decreases k - j
  {
    assert StepAt(g, ss, calls, k - 1);
    if j == k - 1 {
      ChargeOrders(g, ss[j], calls[j].now, calls[j].n, c, d);
    } else {
      var m := DueExists(g, ss[k - 1]);
      CompletionsAscend(g, ss, calls, j, k - 1, c, m);
      ChargeOrders(g, ss[k - 1], calls[k - 1].now, calls[k - 1].n, m, d);
    }
  }

  /** The balance gains at most the rate and loses every byte. */
  lemma {:induction false} Balance(g: Config, ss: seq<State>, calls: seq<Call>, j: nat, k: nat)
    requires Trace(g, ss, calls) && j <= k <= |calls|
    ensures ss[k].tokens
            <= ss[j].tokens + (Over(g.rate, ss[k].last) - Over(g.rate, ss[j].last)) - Charged(calls, j, k) as real
    ensures ss[k].tokens <= g.burst
    decreases k - j
  {
    if k > 0 { assert StepAt(g, ss, calls, k - 1); }
    if j < k {
      Balance(g, ss, calls, j, k - 1);
      Spread(g.rate, calls[k - 1].now, ss[k - 1].last);
    }
  }

  /** The cap. Between the moments any two callers are let go, the bytes charged are at most what
      the rate allows for that time, over what the first left in the bucket: so at most one burst. */
  lemma {:induction false} BytesAreCapped(g: Config, ss: seq<State>, calls: seq<Call>, j: nat, k: nat, c: real, d: real)
    requires Trace(g, ss, calls) && j <= k <= |calls| && Due(g, ss[j], c) && Due(g, ss[k], d)
    ensures Charged(calls, j, k) as real <= (if ss[j].tokens > 0.0 then ss[j].tokens else 0.0) + Over(g.rate, d - c)
    ensures Charged(calls, j, k) as real <= g.burst + Over(g.rate, d - c)
  {
    Balance(g, ss, calls, j, k);
    Balance(g, ss, calls, j, j);
    Spread(g.rate, d, c);
  }

  /** At that time the caller before is still held. */
  ghost predicate Held(g: Config, s: State, now: real) {
    s.tokens < 0.0 && Over(g.rate, now) <= Over(g.rate, s.last) - s.tokens
  }

  /** Each of calls j to k-1 comes while the one before it is held, and the last leaves a deficit. */
  ghost predicate Backlogged(g: Config, ss: seq<State>, calls: seq<Call>, j: nat, k: nat)
    requires |ss| == |calls| + 1 && j <= k <= |calls|
  {
    ss[k].tokens < 0.0 && forall i | j <= i < k :: Held(g, ss[i], calls[i].now)
  }

  /** And the link is not held below the rate: while callers are queued, bytes go at exactly it. */
  lemma {:induction false} BacklogRunsAtRate(g: Config, ss: seq<State>, calls: seq<Call>, j: nat, k: nat, c: real,
          d: real)
    requires Trace(g, ss, calls) && j <= k <= |calls| && Backlogged(g, ss, calls, j, k)
    requires Due(g, ss[j], c) && Due(g, ss[k], d)
    ensures Charged(calls, j, k) as real == Over(g.rate, d - c)
    decreases k - j
  {
    Spread(g.rate, d, c);
    if j < k {
      assert StepAt(g, ss, calls, k - 1) && Held(g, ss[k - 1], calls[k - 1].now);
      var m := DueExists(g, ss[k - 1]);
      BacklogRunsAtRate(g, ss, calls, j, k - 1, c, m);
      Spread(g.rate, m, c);
      Spread(g.rate, calls[k - 1].now, ss[k - 1].last);
    }
  }
}
