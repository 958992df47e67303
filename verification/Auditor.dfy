/**
 * The forward auditor of one log (internal/audit/auditor.go:90-309) and the beacon round it asks
 * for (internal/audit/beacon.go:60-66).
 */
module Auditing {
  import opened Basics

  // ----- the verifier's answer

  datatype Kind = NoKind | Fetch | Decoded | Verify | Unavailable

  /** An error, or a result with its kind where it is not OK. */
  datatype Outcome = Errs | Passed | Failed(kind: Kind)

  // ----- the beacon

  const GENESIS := 1692803367

  function RoundAt(t: int): nat {
    if t - GENESIS < 0 then 1 else (t - GENESIS) / 3 + 1
  }

  /** It is the last round emitted at or before t, round n being emitted at genesis + 3(n-1). */
  lemma {:induction false} RoundIsCurrent(t: int)
    ensures 1692803367 <= t ==> 1692803367 + 3 * (RoundAt(t) - 1) <= t < 1692803367 + 3 * RoundAt(t)
    ensures t < 1692803367 ==> RoundAt(t) == 1
  {
  }

  // ----- the store

  /** A decision on an epoch. */
  datatype Audit = Audit(sampled: bool, round: nat, decidedAt: int, attempts: nat, verified: bool, kind: Kind)

  /** What the store holds for the log: decisions, progress (0 when none), and the epoch in the
      evidence of a fork. */
  datatype State = State(audits: map<int, Audit>, progress: int, fork: Option<int>)

  function Record(s: State, e: int, a: Audit): State {
    s.(audits := s.audits[e := a])
  }

  /** RecordFork: evidence already there is kept. */
  function RecordFork(s: State, e: int): State {
    if s.fork.Some? then s else s.(fork := Some(e))
  }

  /** The store calls of a run, each of which may fail. */
  datatype Call = IsForked | Get | Progress | Prior(e: int) | PriorAgain(e: int) | Write(e: int) | Rewrite(e: int)
                | Advance(e: int) | WriteFork(e: int)

  /** What a run meets: which store calls fail, the witnessed size, how many epochs it may
      consider, when it is cancelled, the clock, the beacon's answer to a round asked for, the
      selection, whether the epoch resolves, and the verifier's answer. */
  datatype Env = Env(fails: Call -> bool, size: Option<nat>, perRound: int, cancelled: int -> bool,
                     now: int -> int, beacon: (int, nat) -> Option<nat>, selects: int -> Option<bool>,
                     resolves: int -> bool, judge: int -> Outcome)

  // ----- one epoch

  const MAX_ATTEMPTS: nat := 5

  datatype Turn = Goes(s: State) | Ends(s: State)

  function PriorOf(s: State, e: int): Option<Audit> {
    if e in s.audits then Some(s.audits[e]) else None
  }

  /** A decision on record keeps its time. */
  function DecidedAt(env: Env, s: State, e: int): int {
    var p := PriorOf(s, e);
    if p.Some? && p.value.round != 0 then p.value.decidedAt else env.now(e)
  }

  function Attempts(s: State, e: int): nat {
    var p := PriorOf(s, e);
    if p.Some? then p.value.attempts else 0
  }

  /** unavailable, ending the run either way. */
  function GiveUp(env: Env, s: State, e: int, ar: Audit, kind: Kind): State {
    if ar.attempts < MAX_ATTEMPTS then
      if env.fails(Rewrite(e)) then s else Record(s, e, ar.(verified := false, kind := kind))
    else if env.fails(Rewrite(e)) then s
    else
      var t := Record(s, e, ar.(verified := false, kind := Unavailable));
      if env.fails(Advance(e)) then t else t.(progress := e)
  }

  /** A selected epoch, with this attempt counted, and the verdict if it resolves. */
  function Check(env: Env, s: State, e: int, ar: Audit, res: Outcome): Turn {
    if !env.resolves(e) || res.Errs? then Ends(GiveUp(env, s, e, ar, Fetch))
    else if env.fails(Write(e)) then Ends(s)
    else if res.Passed? then
      var t := Record(s, e, ar.(verified := true, kind := NoKind));
      if env.fails(Advance(e)) then Ends(t) else Goes(t.(progress := e))
    else
      var t := Record(s, e, ar.(verified := false, kind := res.kind));
      if res.kind == Verify then Ends(if env.fails(WriteFork(e)) then t else RecordFork(t, e))
      else Ends(GiveUp(env, t, e, ar, res.kind))
  }

  /** The epoch is not selected: it is recorded as declined. */
  function Decline(env: Env, s: State, e: int, ar: Audit): Turn {
    if env.fails(Write(e)) then Ends(s)
    else
      var t := Record(s, e, ar);
      if env.fails(Advance(e)) then Ends(t) else Goes(t.(progress := e))
  }

  /** The decision on the epoch, if the run gets as far. */
  function Decide(env: Env, s: State, e: int): Option<Audit> {
    if env.cancelled(e) || env.fails(Prior(e)) then None
    else
      var at := DecidedAt(env, s, e);
      var round, selected := env.beacon(e, RoundAt(at)), env.selects(e);
      if round.None? || selected.None? then None
      else Some(Audit(selected.value, round.value, at, 0, false, NoKind))
  }

  function TurnOf(env: Env, s: State, e: int): Turn {
    var d := Decide(env, s, e);
    if d.None? then Ends(s)
    else if !d.value.sampled then Decline(env, s, e, d.value)
    else if env.fails(PriorAgain(e)) then Ends(s)
    else Check(env, s, e, d.value.(attempts := Attempts(s, e) + 1), env.judge(e))
  }

  // ----- one run

  function Sweep(env: Env, s: State, e: int, limit: int): State
    decreases limit - e
  {
    if e > limit then s
    else
      match TurnOf(env, s, e)
      case Ends(t) => t
      case Goes(t) => Sweep(env, t, e + 1, limit)
  }

  lemma {:induction false} SweepTurn(env: Env, s: State, e: int, limit: int)
    requires e <= limit
    ensures var t := TurnOf(env, s, e);
            Sweep(env, s, e, limit) == if t.Goes? then Sweep(env, t.s, e + 1, limit) else t.s
  {
  }

  /** Where a run starts: after the progress on record, or at the tip if there is none. */
  function From(s: State, size: nat): int {
    if s.progress == 0 then size - 1 else s.progress
  }

  function Limit(env: Env, from: int, size: nat): int {
    if env.perRound > 0 && size - from > env.perRound then from + env.perRound else size
  }

  function RunOf(env: Env, s: State): State {
    if env.fails(IsForked) || s.fork.Some? || env.fails(Get) || env.size.None? || env.fails(Progress) then s
    else
      var from := From(s, env.size.value);
      Sweep(env, s, from + 1, Limit(env, from, env.size.value))
  }

  function RunsOf(envs: seq<Env>, s: State): State
    decreases |envs|
  {
    if envs == [] then s else RunsOf(envs[1..], RunOf(envs[0], s))
  }

  class Auditor {
    var audits: map<int, Audit>
    var progress: int
    var fork: Option<int>

    constructor ()
      ensures Stored() == State(map[], 0, None)
    {
      audits, progress, fork := map[], 0, None;
    }

    function Stored(): State
      reads this
    {
      State(audits, progress, fork)
    }

    /** Run. */
    method Run(env: Env)
      modifies this
      ensures Stored() == RunOf(env, old(Stored()))
    {
      if env.fails(IsForked) || fork.Some? || env.fails(Get) || env.size.None? || env.fails(Progress) {
        return;
      }
      var from := progress;
      if from == 0 {
        from := env.size.value - 1;
      }
      var limit: int := env.size.value;
      if env.perRound > 0 && limit - from > env.perRound {
        limit := from + env.perRound;
      }
      RunFrom(env, from + 1, limit);
    }

    /** Its loop. */
    method RunFrom(env: Env, first: int, limit: int)
      modifies this
      ensures Stored() == Sweep(env, old(Stored()), first, limit)
    {
      var epoch := first;
      while epoch <= limit
        invariant Sweep(env, Stored(), epoch, limit) == Sweep(env, old(Stored()), first, limit)
        decreases limit - epoch
      {
        SweepTurn(env, Stored(), epoch, limit);
        var more := AuditEpoch(env, epoch);
        if !more {
          return;
        }
        epoch := epoch + 1;
      }
    }

    /** The body of its loop; more says the loop goes on. */
    method AuditEpoch(env: Env, e: int) returns (more: bool)
      modifies this
      ensures TurnOf(env, old(Stored()), e) == if more then Goes(Stored()) else Ends(Stored())
    {
      var d := DecideEpoch(env, e);
      if d.None? {
        return false;
      }
      var ar := d.value;
      if !ar.sampled {
        more := DeclineEpoch(env, e, ar);
        return;
      }
      if env.fails(PriorAgain(e)) {
        return false;
      }
      if e in audits {
        ar := ar.(attempts := audits[e].attempts);
      }
      ar := ar.(attempts := ar.attempts + 1);
      more := CheckEpoch(env, e, ar);
    }

    method DecideEpoch(env: Env, e: int) returns (d: Option<Audit>)
      ensures d == Decide(env, Stored(), e)
    {
      if env.cancelled(e) || env.fails(Prior(e)) {
        return None;
      }
      var at := env.now(e);
      if e in audits && audits[e].round != 0 {
        at := audits[e].decidedAt;
      }
      var round := env.beacon(e, RoundAt(at));
      if round.None? {
        return None;
      }
      var selected := env.selects(e);
      if selected.None? {
        return None;
      }
      return Some(Audit(selected.value, round.value, at, 0, false, NoKind));
    }

    method DeclineEpoch(env: Env, e: int, ar: Audit) returns (more: bool)
      modifies this
      ensures Decline(env, old(Stored()), e, ar) == if more then Goes(Stored()) else Ends(Stored())
    {
      if env.fails(Write(e)) {
        return false;
      }
      audits := audits[e := ar];
      if env.fails(Advance(e)) {
        return false;
      }
      progress := e;
      return true;
    }

    method CheckEpoch(env: Env, e: int, ar: Audit) returns (more: bool)
      modifies this
      ensures Check(env, old(Stored()), e, ar, env.judge(e)) == if more then Goes(Stored()) else Ends(Stored())
    {
      if !env.resolves(e) {
        MarkUnavailable(env, e, ar, Fetch);
        return false;
      }
      var res := env.judge(e);
      if res.Errs? {
        MarkUnavailable(env, e, ar, Fetch);
        return false;
      }
      if env.fails(Write(e)) {
        return false;
      }
      audits := audits[e := ar.(verified := res.Passed?, kind := if res.Failed? then res.kind else NoKind)];
      if res == Failed(Verify) {
        if !env.fails(WriteFork(e)) && fork.None? {
          fork := Some(e);
        }
        return false;
      }
      if !res.Passed? {
        MarkUnavailable(env, e, ar, res.kind);
        return false;
      }
      if env.fails(Advance(e)) {
        return false;
      }
      progress := e;
      return true;
    }

    /** unavailable. */
    method MarkUnavailable(env: Env, e: int, ar: Audit, kind: Kind)
      modifies this
      ensures Stored() == GiveUp(env, old(Stored()), e, ar, kind)
    {
      var exhausted := ar.attempts >= MAX_ATTEMPTS;
      if env.fails(Rewrite(e)) {
        return;
      }
      audits := audits[e := ar.(verified := false, kind := if exhausted then Unavailable else kind)];
      if exhausted && !env.fails(Advance(e)) {
        progress := e;
      }
    }
  }

  // ----- what a turn does

  /** An epoch's record as a turn leaves it, if the turn writes one: declined; verified; or tried
      once more, in error, out of attempts, or refuted. */
  predicate Settled(a: Audit) {
    !a.sampled || a.verified || (a.kind == Unavailable && a.attempts >= MAX_ATTEMPTS)
  }

  /** Only this epoch's record changes; progress moves, if at all, to this epoch, and only with the
      record settled; and the loop goes on only with progress moved. */
  lemma {:induction false} TurnIsLocal(env: Env, s: State, e: int)
    ensures Local(s, TurnOf(env, s, e), e)
  {
    var d := Decide(env, s, e);
    if d.Some? && d.value.sampled {
      CheckIsLocal(env, s, e, d.value.(attempts := Attempts(s, e) + 1), env.judge(e));
    }
  }

  ghost predicate Local(s: State, t: Turn, e: int) {
    && (forall k | k != e :: PriorOf(t.s, k) == PriorOf(s, k))
    && (t.s.progress == s.progress || (t.s.progress == e && e in t.s.audits && Settled(t.s.audits[e])))
    && (t.Goes? ==> t.s.progress == e && e in t.s.audits && Settled(t.s.audits[e]))
    && (e in s.audits ==> e in t.s.audits)
  }

  lemma {:induction false} CheckIsLocal(env: Env, s: State, e: int, ar: Audit, res: Outcome)
    ensures Local(s, Check(env, s, e, ar, res), e)
  {
  }

  // ----- progress

  /** Every epoch after start, up to last, is settled. */
  ghost predicate Covered(s: State, start: int, last: int) {
    forall k | start < k <= last :: k in s.audits && Settled(s.audits[k])
  }

  lemma {:induction false} TurnCovers(s: State, start: int, e: int, t: Turn)
    requires Covered(s, start, e - 1) && Local(s, t, e)
    ensures Covered(t.s, start, e - 1) && (t.s.progress != s.progress || t.Goes? ==> Covered(t.s, start, e))
  {
    forall k | start < k < e ensures k in t.s.audits && Settled(t.s.audits[k]) {
      assert PriorOf(t.s, k) == PriorOf(s, k) == Some(s.audits[k]);
    }
  }

  /** The loop may come to e: all from start on is settled before it. */
  ghost predicate Reaches(s: State, start: int, e: int) {
    && start < e && 0 <= e && 0 <= s.progress && (s.progress == 0 || s.progress == e - 1)
    && Covered(s, start, e - 1)
  }

  /** From e on the loop takes s to t: progress rose over settled epochs, and no record before e is
      other than it was. */
  ghost predicate Carries(s: State, t: State, start: int, e: int) {
    && s.progress <= t.progress
    && (t.progress == s.progress || start < t.progress)
    && (t.progress > 0 ==> Covered(t, start, t.progress))
    && (forall k | k < e :: PriorOf(t, k) == PriorOf(s, k))
  }

  lemma {:induction false} TurnCarries(s: State, start: int, e: int, t: Turn)
    requires Reaches(s, start, e) && Local(s, t, e)
    ensures Carries(s, t.s, start, e) && (t.Goes? ==> Reaches(t.s, start, e + 1))
  {
    TurnCovers(s, start, e, t);
  }

  lemma {:induction false} CarriesOn(s: State, t: State, u: State, start: int, e: int)
    requires Carries(s, t, start, e) && Carries(t, u, start, e + 1)
    ensures Carries(s, u, start, e)
  {
    forall k | k < e ensures PriorOf(u, k) == PriorOf(s, k) { assert PriorOf(t, k) == PriorOf(s, k); }
  }

  lemma {:induction false} SweepCovers(env: Env, s: State, start: int, e: int, limit: int)
    requires Reaches(s, start, e)
    ensures Carries(s, Sweep(env, s, e, limit), start, e)
    decreases limit - e
  {
    if e <= limit {
      TurnIsLocal(env, s, e);
      var t := TurnOf(env, s, e);
      TurnCarries(s, start, e, t);
      if t.Goes? {
        SweepCovers(env, t.s, start, e + 1, limit);
        CarriesOn(s, t.s, Sweep(env, t.s, e + 1, limit), start, e);
      }
    }
  }

  /** One run: progress never falls; if there was any, all epochs it gains are settled and no record
      at or below it changes; if there was none, it starts after the tip's predecessor. */
  lemma {:induction false} RunCovers(env: Env, s: State, start: int)
    requires 0 <= s.progress && (s.progress > 0 ==> start <= s.progress && Covered(s, start, s.progress))
    ensures var t := RunOf(env, s);
            && s.progress <= t.progress
            && (s.progress > 0 ==>
                  Covered(t, start, t.progress) && forall k | k <= s.progress :: PriorOf(t, k) == PriorOf(s, k))
            && (s.progress == 0 && t.progress > 0 ==>
                  env.size.Some? && env.size.value <= t.progress && Covered(t, env.size.value - 1, t.progress))
  {
    if !(env.fails(IsForked) || s.fork.Some? || env.fails(Get) || env.size.None? || env.fails(Progress)) {
      var from := From(s, env.size.value);
      SweepCovers(env, s, if s.progress == 0 then from else start, from + 1, Limit(env, from, env.size.value));
    }
  }

  lemma {:induction false} CoveredRuns(envs: seq<Env>, s: State, start: int)
    requires 0 < s.progress && start <= s.progress && Covered(s, start, s.progress)
    ensures var t := RunsOf(envs, s);
            && s.progress <= t.progress && Covered(t, start, t.progress)
            && forall k | k <= s.progress :: PriorOf(t, k) == PriorOf(s, k)
    decreases |envs|
  {
    if envs != [] {
      RunCovers(envs[0], s, start);
      CoveredRuns(envs[1..], RunOf(envs[0], s), start);
    }
  }

  lemma {:induction false} RunsRise(envs: seq<Env>, s: State)
    requires 0 <= s.progress
    ensures s.progress <= RunsOf(envs, s).progress
    decreases |envs|
  {
    if envs != [] {
      RunCovers(envs[0], s, s.progress);
      RunsRise(envs[1..], RunOf(envs[0], s));
    }
  }

  lemma {:induction false} RunsSplit(envs: seq<Env>, s: State, j: nat)
    requires j <= |envs|
    ensures RunsOf(envs, s) == RunsOf(envs[j..], RunsOf(envs[..j], s))
    decreases |envs|
  {
    if j == 0 {
      assert envs[0..] == envs;
    } else {
      assert envs[..j][0] == envs[0] && envs[..j][1..] == envs[1..][..j - 1] && envs[1..][j - 1..] == envs[j..];
      RunsSplit(envs[1..], RunOf(envs[0], s), j - 1);
    }
  }

  /** The state after the first j runs. */
  function StateAt(envs: seq<Env>, s: State, j: nat): State
    requires j <= |envs|
  {
    RunsOf(envs[..j], s)
  }

  /** Once there is a fork nothing changes. */
  lemma {:induction false} ForkStays(envs: seq<Env>, s: State)
    requires s.fork.Some?
    ensures RunsOf(envs, s) == s
    decreases |envs|
  {
    if envs != [] { ForkStays(envs[1..], RunOf(envs[0], s)); }
  }

  lemma {:induction false} LaterState(envs: seq<Env>, s: State, i: nat)
    requires envs != [] && i <= |envs[1..]|
    ensures StateAt(envs, s, i + 1) == StateAt(envs[1..], RunOf(envs[0], s), i)
  {
    assert envs[..i + 1][0] == envs[0] && envs[..i + 1][1..] == envs[1..][..i];
  }

  /** Progress never falls from one run to a later one. */
  lemma {:induction false} ProgressRises(envs: seq<Env>, s: State, j: nat, k: nat)
    requires 0 <= s.progress && j <= k <= |envs|
    ensures s.progress <= StateAt(envs, s, j).progress <= StateAt(envs, s, k).progress
  {
    RunsRise(envs[..j], s);
    RunsSplit(envs[..k], s, j);
    assert envs[..k][..j] == envs[..j];
    RunsRise(envs[..k][j..], StateAt(envs, s, j));
  }

  /** Run i is the first to record progress, and it met the log at its tip. */
  ghost predicate Starts(envs: seq<Env>, s: State, i: nat) {
    && i < |envs| && StateAt(envs, s, i).progress == 0 < StateAt(envs, s, i + 1).progress
    && envs[i].size.Some? && envs[i].size.value <= StateAt(envs, s, i + 1).progress
  }

  /** Over any runs of a new auditor, each cut short at any store call or not: progress never falls,
      and it is contiguous. Every epoch from the tip as the first run to record progress met it, up to
      the progress, is declined, verified, or given up after at least five attempts. */
  lemma {:induction false} ProgressIsSafe(envs: seq<Env>, s: State) returns (i: nat)
    requires s.progress == 0
    ensures forall j, k | 0 <= j <= k <= |envs| :: StateAt(envs, s, j).progress <= StateAt(envs, s, k).progress
    ensures 0 <= RunsOf(envs, s).progress
    ensures RunsOf(envs, s).progress > 0 ==>
              Starts(envs, s, i) && Covered(RunsOf(envs, s), envs[i].size.value - 1, RunsOf(envs, s).progress)
  {
    forall j, k | 0 <= j <= k <= |envs| ensures StateAt(envs, s, j).progress <= StateAt(envs, s, k).progress {
      ProgressRises(envs, s, j, k);
    }
    RunsRise(envs, s);
    i := FirstProgress(envs, s);
  }

  lemma {:induction false} FirstProgress(envs: seq<Env>, s: State) returns (i: nat)
    requires s.progress == 0
    ensures RunsOf(envs, s).progress > 0 ==>
              Starts(envs, s, i) && Covered(RunsOf(envs, s), envs[i].size.value - 1, RunsOf(envs, s).progress)
    decreases |envs|
  {
    i := 0;
    if envs != [] {
      var t := RunOf(envs[0], s);
      RunCovers(envs[0], s, 0);
      assert RunsOf(envs, s) == RunsOf(envs[1..], t);
      if t.progress > 0 {
        FirstStates(envs, s);
        CoveredRuns(envs[1..], t, envs[0].size.value - 1);
      } else {
        i := FirstProgress(envs[1..], t);
        if RunsOf(envs, s).progress > 0 { StartsLater(envs, s, i); }
        i := i + 1;
      }
    }
  }

  lemma {:induction false} FirstStates(envs: seq<Env>, s: State)
    requires envs != []
    ensures StateAt(envs, s, 0) == s && StateAt(envs, s, 1) == RunOf(envs[0], s)
  {
    assert envs[..0] == [];
    var one := envs[..1];
    assert one[0] == envs[0] && one[1..] == [];
    assert RunsOf(one[1..], RunOf(envs[0], s)) == RunOf(envs[0], s);
  }

  lemma {:induction false} StartsLater(envs: seq<Env>, s: State, i: nat)
    requires envs != [] && Starts(envs[1..], RunOf(envs[0], s), i)
    ensures Starts(envs, s, i + 1) && envs[i + 1] == envs[1..][i]
  {
    LaterState(envs, s, i);
    LaterState(envs, s, i + 1);
  }

  lemma {:induction false} SweepLeavesBelow(env: Env, s: State, e: int, limit: int, k: int)
    requires k < e
    ensures PriorOf(Sweep(env, s, e, limit), k) == PriorOf(s, k)
    decreases limit - e
  {
    if e <= limit {
      TurnIsLocal(env, s, e);
      var t := TurnOf(env, s, e);
      if t.Goes? { SweepLeavesBelow(env, t.s, e + 1, limit, k); }
    }
  }

  /** Until progress is first recorded the start follows the tip: an epoch tried and failed is
      passed over, unsettled, once the log has grown past it. */
  lemma {:induction false} StartFollowsTip(env: Env, s: State, k: int)
    requires s.progress == 0 && env.size.Some? && k < env.size.value
    ensures PriorOf(RunOf(env, s), k) == PriorOf(s, k)
  {
    var from := From(s, env.size.value);
    SweepLeavesBelow(env, s, from + 1, Limit(env, from, env.size.value), k);
  }

  // ----- beacon rounds

  /** The beacon answers with the round it was asked for. */
  ghost predicate Answers(env: Env) {
    forall e, n | env.beacon(e, n).Some? :: env.beacon(e, n).value == n
  }

  /** Every record with a round has the one its time determines. A worker's record has round 0. */
  ghost predicate Pinned(s: State) {
    forall e | e in s.audits && s.audits[e].round != 0 :: s.audits[e].round == RoundAt(s.audits[e].decidedAt)
  }

  /** A record with a round keeps it, and the time it stands for. */
  ghost predicate Keeps(s: State, t: State) {
    forall e | e in s.audits && s.audits[e].round != 0 ::
      e in t.audits && t.audits[e].round == s.audits[e].round && t.audits[e].decidedAt == s.audits[e].decidedAt
  }

  /** Whatever a turn records for the epoch carries the round and time of its decision. */
  lemma {:induction false} TurnDecides(env: Env, s: State, e: int)
    ensures var t, d := TurnOf(env, s, e).s, Decide(env, s, e);
            PriorOf(t, e) == PriorOf(s, e)
            || (d.Some? && e in t.audits
                && t.audits[e].round == d.value.round && t.audits[e].decidedAt == d.value.decidedAt)
  {
    var d := Decide(env, s, e);
    if d.Some? && d.value.sampled {
      CheckDecides(env, s, e, d.value.(attempts := Attempts(s, e) + 1), env.judge(e));
    }
  }

  lemma {:induction false} CheckDecides(env: Env, s: State, e: int, ar: Audit, res: Outcome)
    ensures var t := Check(env, s, e, ar, res).s;
            PriorOf(t, e) == PriorOf(s, e)
            || (e in t.audits && t.audits[e].round == ar.round && t.audits[e].decidedAt == ar.decidedAt)
  {
  }

  /** The run gets as far as a decision on the epoch, and the store call that first records it does
      not fail. */
  predicate Records(env: Env, s: State, e: int) {
    var d := Decide(env, s, e);
    && d.Some?
    && if !d.value.sampled then !env.fails(Write(e))
       else !env.fails(PriorAgain(e))
            && if !env.resolves(e) || env.judge(e).Errs? then !env.fails(Rewrite(e)) else !env.fails(Write(e))
  }

  /** A turn changes a recorded round exactly when it records the epoch and the beacon, asked for the
      round of the decision's time, answers with another number. */
  lemma {:induction false} RoundChanges(env: Env, s: State, e: int)
    requires e in s.audits && s.audits[e].round != 0
    ensures e in TurnOf(env, s, e).s.audits
    ensures TurnOf(env, s, e).s.audits[e].round != s.audits[e].round <==>
            Records(env, s, e) && env.beacon(e, RoundAt(s.audits[e].decidedAt)) != Some(s.audits[e].round)
  {
    TurnDecides(env, s, e);
    TurnIsLocal(env, s, e);
    assert PriorOf(s, e) == Some(s.audits[e]);
    var d := Decide(env, s, e);
    if d.Some? && d.value.sampled && !env.fails(PriorAgain(e)) {
      CheckRecords(env, s, e, d.value.(attempts := Attempts(s, e) + 1), env.judge(e));
    }
  }

  /** A check leaves a record with the new attempt's round exactly when the first call to record it
      goes through. */
  lemma {:induction false} CheckRecords(env: Env, s: State, e: int, ar: Audit, res: Outcome)
    ensures var t := Check(env, s, e, ar, res).s;
            if (if !env.resolves(e) || res.Errs? then !env.fails(Rewrite(e)) else !env.fails(Write(e)))
            then e in t.audits && t.audits[e].round == ar.round
            else t == s
  {
  }

  /** An instance: round 7 on record, and the beacon answers 9 whatever it is asked. */
  lemma {:induction false} RoundIsReplaced(e: int)
    ensures var s := State(map[e := Audit(true, 7, 0, 1, false, Fetch)], 0, None);
            var env := Env(c => false, Some(1), 0, k => false, k => 0, (k, n) => Some(9), k => Some(false),
                           k => false, k => Errs);
            && TurnOf(env, s, e).s.audits[e].round == 9
  {
  }

  lemma {:induction false} TurnKeepsRounds(env: Env, s: State, e: int)
    requires Answers(env) && Pinned(s)
    ensures Pinned(TurnOf(env, s, e).s) && Keeps(s, TurnOf(env, s, e).s)
  {
    TurnDecides(env, s, e);
    TurnIsLocal(env, s, e);
    var t := TurnOf(env, s, e).s;
    forall k | k in t.audits && t.audits[k].round != 0
      ensures t.audits[k].round == RoundAt(t.audits[k].decidedAt)
    {
      if k != e { assert PriorOf(t, k) == PriorOf(s, k); }
    }
    forall k | k in s.audits && s.audits[k].round != 0
      ensures k in t.audits && t.audits[k].round == s.audits[k].round && t.audits[k].decidedAt == s.audits[k].decidedAt
    {
      if k != e { assert PriorOf(t, k) == PriorOf(s, k); }
    }
  }

  lemma {:induction false} SweepKeepsRounds(env: Env, s: State, e: int, limit: int)
    requires Answers(env) && Pinned(s)
    ensures Pinned(Sweep(env, s, e, limit)) && Keeps(s, Sweep(env, s, e, limit))
    decreases limit - e
  {
    if e <= limit {
      TurnKeepsRounds(env, s, e);
      var t := TurnOf(env, s, e);
      if t.Goes? {
        SweepKeepsRounds(env, t.s, e + 1, limit);
        assert Keeps(s, t.s) && Keeps(t.s, Sweep(env, t.s, e + 1, limit));
      }
    }
  }

  /** With a beacon that answers what it is asked, no run changes a recorded round or the time that
      determines it: a decision is pinned when first made. */
  lemma {:induction false} RoundsArePinned(envs: seq<Env>, s: State)
    requires (forall i | 0 <= i < |envs| :: Answers(envs[i])) && Pinned(s)
    ensures Pinned(RunsOf(envs, s)) && Keeps(s, RunsOf(envs, s))
    decreases |envs|
  {
    if envs != [] {
      var env := envs[0];
      var t := RunOf(env, s);
      assert Pinned(t) && Keeps(s, t) by {
        if !(env.fails(IsForked) || s.fork.Some? || env.fails(Get) || env.size.None? || env.fails(Progress)) {
          var from := From(s, env.size.value);
          SweepKeepsRounds(env, s, from + 1, Limit(env, from, env.size.value));
        }
      }
      RoundsArePinned(envs[1..], t);
    }
  }

  // ----- forks

  /** A turn records a fork exactly when the epoch is selected and resolves, its proof fails for
      "verify", and the store takes the record and the fork. */
  lemma {:induction false} TurnForks(env: Env, s: State, e: int)
    requires s.fork.None?
    ensures var t, d := TurnOf(env, s, e), Decide(env, s, e);
            && (t.s.fork.None? || t.s.fork == Some(e))
            && (t.s.fork == Some(e) <==>
                d.Some? && d.value.sampled && !env.fails(PriorAgain(e)) && env.resolves(e)
                && env.judge(e) == Failed(Verify) && !env.fails(Write(e)) && !env.fails(WriteFork(e)))
            && (t.s.fork.Some? ==> t.Ends? && t.s.progress == s.progress)
  {
    var d := Decide(env, s, e);
    if d.Some? && d.value.sampled && !env.fails(PriorAgain(e)) {
      CheckForks(env, s, e, d.value.(attempts := Attempts(s, e) + 1), env.judge(e));
    }
  }

  lemma {:induction false} CheckForks(env: Env, s: State, e: int, ar: Audit, res: Outcome)
    requires s.fork.None?
    ensures var t := Check(env, s, e, ar, res);
            && (t.s.fork.None? || t.s.fork == Some(e))
            && (t.s.fork == Some(e) <==>
                env.resolves(e) && res == Failed(Verify) && !env.fails(Write(e)) && !env.fails(WriteFork(e)))
            && (t.s.fork.Some? ==> t.Ends? && t.s.progress == s.progress)
  {
  }

  lemma {:induction false} SweepForks(env: Env, s: State, e: int, limit: int)
    requires s.fork.None?
    ensures var t := Sweep(env, s, e, limit);
            t.fork.Some? ==> e <= t.fork.value <= limit && env.judge(t.fork.value) == Failed(Verify)
    decreases limit - e
  {
    if e <= limit {
      TurnForks(env, s, e);
      var t := TurnOf(env, s, e);
      if t.Goes? { SweepForks(env, t.s, e + 1, limit); }
    }
  }

  /** A run records a fork only for an epoch that fails for "verify"; and once there is one no run
      changes anything. */
  lemma {:induction false} RunForks(env: Env, s: State)
    ensures var t := RunOf(env, s);
            if s.fork.Some? then t == s else t.fork.Some? ==> env.judge(t.fork.value) == Failed(Verify)
  {
    if !(env.fails(IsForked) || s.fork.Some? || env.fails(Get) || env.size.None? || env.fails(Progress)) {
      var from := From(s, env.size.value);
      SweepForks(env, s, from + 1, Limit(env, from, env.size.value));
    }
  }

  // ----- an epoch does not hold the auditor up

  /** The store works, and for this epoch the beacon and the selection do and nothing cancels. */
  ghost predicate Works(env: Env, e: int) {
    && (forall c :: !env.fails(c))
    && env.size.Some? && e <= env.size.value && !env.cancelled(e)
    && env.selects(e).Some? && forall n :: env.beacon(e, n).Some?
  }

  /** A turn on the epoch settles it, or records a fork, or counts one more attempt, of fewer than
      five. */
  lemma {:induction false} TurnGetsOn(env: Env, s: State, e: int)
    requires Works(env, e) && s.fork.None? && s.progress <= e
    ensures var t := TurnOf(env, s, e).s;
            || t.progress == e
            || t.fork.Some?
            || (Attempts(t, e) == Attempts(s, e) + 1 && Attempts(t, e) < MAX_ATTEMPTS
                && t.progress == s.progress && TurnOf(env, s, e).Ends?)
  {
    var d := Decide(env, s, e);
    assert env.beacon(e, RoundAt(DecidedAt(env, s, e))).Some?;
    if d.value.sampled {
      CheckGetsOn(env, s, e, d.value.(attempts := Attempts(s, e) + 1), env.judge(e));
    }
  }

  lemma {:induction false} CheckGetsOn(env: Env, s: State, e: int, ar: Audit, res: Outcome)
    requires (forall c :: !env.fails(c)) && s.fork.None? && s.progress <= e
    ensures var t := Check(env, s, e, ar, res);
            || t.s.progress == e
            || t.s.fork.Some?
            || (Attempts(t.s, e) == ar.attempts && ar.attempts < MAX_ATTEMPTS && t.s.progress == s.progress && t.Ends?)
  {
  }

  lemma {:induction false} SweepRises(env: Env, s: State, e: int, limit: int)
    requires s.progress < e
    ensures s.progress <= Sweep(env, s, e, limit).progress
    decreases limit - e
  {
    if e <= limit {
      TurnIsLocal(env, s, e);
      var t := TurnOf(env, s, e);
      if t.Goes? { SweepRises(env, t.s, e + 1, limit); }
    }
  }

  /** The first epoch a run considers when it meets the log at this size: the tip, until there is
      progress, and then the epoch after it; or progress itself, when that is past the tip and the run
      considers none. */
  function Head(progress: int, size: nat): int {
    if progress == 0 then size else if progress < size then progress + 1 else progress
  }

  /** The run meets the log at this size, and works on the epoch it considers first, if any. */
  ghost predicate Meets(env: Env, progress: int, size: nat) {
    env.size == Some(size) && (progress == 0 || progress < size ==> Works(env, Head(progress, size)))
  }

  /** How many of the runs consider the epoch first, as long as progress stays. */
  function Tries(progress: int, sizes: seq<nat>, e: int): nat {
    if sizes == [] then 0 else (if Head(progress, sizes[0]) == e then 1 else 0) + Tries(progress, sizes[1..], e)
  }

  /** From s to t progress rose, or a fork was recorded, or the epoch e was tried once more and is not
      out of attempts, and nothing else was tried. */
  ghost predicate GetsOn(s: State, t: State, e: int) {
    || t.progress > s.progress
    || t.fork.Some?
    || (t.progress == s.progress && (forall k | k != e :: Attempts(t, k) == Attempts(s, k))
        && (e > s.progress ==> Attempts(t, e) == Attempts(s, e) + 1 && Attempts(t, e) < MAX_ATTEMPTS))
  }

  lemma {:induction false} LocalAttempts(s: State, t: Turn, e: int)
    requires Local(s, t, e)
    ensures forall k | k != e :: Attempts(t.s, k) == Attempts(s, k)
  {
    forall k | k != e ensures Attempts(t.s, k) == Attempts(s, k) { assert PriorOf(t.s, k) == PriorOf(s, k); }
  }

  lemma {:induction false} EndsGetsOn(env: Env, s: State, e: int)
    requires Works(env, e) && s.fork.None? && s.progress <= e && TurnOf(env, s, e).Ends?
    ensures GetsOn(s, TurnOf(env, s, e).s, e)
  {
    TurnGetsOn(env, s, e);
    TurnIsLocal(env, s, e);
    LocalAttempts(s, TurnOf(env, s, e), e);
  }

  lemma {:induction false} RunGetsOn(env: Env, s: State, size: nat)
    requires 0 <= s.progress && s.fork.None? && Meets(env, s.progress, size)
    ensures GetsOn(s, RunOf(env, s), Head(s.progress, size))
  {
    var e := Head(s.progress, size);
    RunBegins(env, s, size);
    if s.progress == 0 || s.progress < size {
      var t := TurnOf(env, s, e);
      if t.Ends? {
        EndsGetsOn(env, s, e);
      } else if e > s.progress {
        TurnIsLocal(env, s, e);
        SweepRises(env, t.s, e + 1, Limit(env, From(s, size), size));
      } else {
        TurnIsLocal(env, s, e);
        LocalAttempts(s, t, e);
      }
    }
  }

  /** A run that works is a turn on the epoch it considers first, and what follows that. */
  lemma {:induction false} RunBegins(env: Env, s: State, size: nat)
    requires 0 <= s.progress && s.fork.None? && Meets(env, s.progress, size)
    ensures var e, limit := Head(s.progress, size), Limit(env, From(s, size), size);
            if s.progress == 0 || s.progress < size
            then var t := TurnOf(env, s, e);
                 (s.progress == 0 ==> e == limit)
                 && RunOf(env, s) == if t.Goes? then Sweep(env, t.s, e + 1, limit) else t.s
            else RunOf(env, s) == s
  {
    var e, limit := Head(s.progress, size), Limit(env, From(s, size), size);
    if s.progress == 0 || s.progress < size {
      assert RunOf(env, s) == Sweep(env, s, e, limit);
      SweepTurn(env, s, e, limit);
    } else if !(env.fails(IsForked) || env.fails(Get) || env.fails(Progress)) {
      assert RunOf(env, s) == Sweep(env, s, s.progress + 1, limit);
    }
  }

  /** Five tries are enough. With a working store and beacon, whatever the verifier says: if some
      epoch past progress is considered first by enough runs to bring its attempts to five, then by
      the end progress has moved or there is a fork. */
  lemma {:induction false} FiveTriesSettle(envs: seq<Env>, sizes: seq<nat>, s: State, e: int)
    requires 0 <= s.progress < e && s.fork.None?
    requires |envs| == |sizes| && forall i | 0 <= i < |envs| :: Meets(envs[i], s.progress, sizes[i])
    requires 0 < Tries(s.progress, sizes, e) && Tries(s.progress, sizes, e) + Attempts(s, e) >= MAX_ATTEMPTS
    ensures RunsOf(envs, s).progress > s.progress || RunsOf(envs, s).fork.Some?
    decreases |envs|
  {
    RunGetsOn(envs[0], s, sizes[0]);
    var t := RunOf(envs[0], s);
    if t.progress > s.progress || t.fork.Some? {
      RunCovers(envs[0], s, s.progress);
      RunsRise(envs[1..], t);
      if t.fork.Some? { ForkStays(envs[1..], t); }
    } else {
      FiveTriesSettle(envs[1..], sizes[1..], t, e);
    }
  }

  // ----- and fewer are not

  /** A working run whose verifier errs. */
  function Hapless(size: nat): Env {
    Env(c => false, Some(size), 0, e => false, e => 0, (e, n) => Some(n), e => Some(true), e => true, e => Errs)
  }

  function AllHapless(sizes: seq<nat>): (envs: seq<Env>)
    ensures |envs| == |sizes| && forall i | 0 <= i < |sizes| :: envs[i] == Hapless(sizes[i])
  {
    seq(|sizes|, i requires 0 <= i < |sizes| => Hapless(sizes[i]))
  }

  lemma {:induction false} HaplessRun(s: State, size: nat)
    requires 0 <= s.progress && s.fork.None?
    requires var e := Head(s.progress, size); e > s.progress ==> Attempts(s, e) + 1 < MAX_ATTEMPTS
    ensures var t, e := RunOf(Hapless(size), s), Head(s.progress, size);
            && t.progress == s.progress && t.fork.None?
            && (forall k | k != e :: Attempts(t, k) == Attempts(s, k))
            && (e > s.progress ==> Attempts(t, e) == Attempts(s, e) + 1)
  {
    var env, e := Hapless(size), Head(s.progress, size);
    var limit := Limit(env, From(s, size), size);
    if s.progress == 0 || s.progress < size {
      assert RunOf(env, s) == Sweep(env, s, e, limit);
      SweepTurn(env, s, e, limit);
      var t := TurnOf(env, s, e);
      assert t == Ends(GiveUp(env, s, e, Audit(true, Decide(env, s, e).value.round, DecidedAt(env, s, e),
                                               Attempts(s, e) + 1, false, NoKind), Fetch));
      forall k | k != e ensures Attempts(t.s, k) == Attempts(s, k) { assert PriorOf(t.s, k) == PriorOf(s, k); }
    } else {
      assert RunOf(env, s) == s;
    }
  }

  /** No epoch past progress is tried often enough. */
  ghost predicate TooFew(s: State, sizes: seq<nat>) {
    forall e | s.progress < e ::
      Tries(s.progress, sizes, e) == 0 || Tries(s.progress, sizes, e) + Attempts(s, e) < MAX_ATTEMPTS
  }

  lemma {:induction false} HaplessRuns(sizes: seq<nat>, s: State)
    requires 0 <= s.progress && s.fork.None? && TooFew(s, sizes)
    ensures RunsOf(AllHapless(sizes), s).progress == s.progress && RunsOf(AllHapless(sizes), s).fork.None?
    decreases |sizes|
  {
    if sizes != [] {
      var m, rest := Head(s.progress, sizes[0]), sizes[1..];
      var envs := AllHapless(sizes);
      assert Tries(s.progress, sizes, m) == 1 + Tries(s.progress, rest, m);
      HaplessRun(s, sizes[0]);
      var t := RunOf(envs[0], s);
      forall e | t.progress < e
        ensures Tries(t.progress, rest, e) == 0 || Tries(t.progress, rest, e) + Attempts(t, e) < MAX_ATTEMPTS
      {
        assert Tries(s.progress, sizes, e) == (if m == e then 1 else 0) + Tries(s.progress, rest, e);
      }
      HaplessRuns(rest, t);
      assert envs[1..] == AllHapless(rest);
    }
  }

  /** Whatever the verifier, the selection and the resolver do in these runs, progress moves or a fork
      is recorded. */
  ghost predicate Forced(s: State, sizes: seq<nat>) {
    forall envs: seq<Env> | |envs| == |sizes| && forall i | 0 <= i < |envs| :: Meets(envs[i], s.progress, sizes[i]) ::
      RunsOf(envs, s).progress > s.progress || RunsOf(envs, s).fork.Some?
  }

  /** When an auditor with a working store and beacon is bound to get on, from any state, new or not:
      exactly when some epoch past its progress is considered first by enough of the runs to bring its
      attempts to five. Without progress the runs consider the tip as they meet it, so that is a
      matter of how often they meet the log at one size. */
  lemma {:induction false} GettingOnIsForced(s: State, sizes: seq<nat>)
    requires 0 <= s.progress && s.fork.None?
    ensures Forced(s, sizes) <==> !TooFew(s, sizes)
  {
    if TooFew(s, sizes) {
      var envs := AllHapless(sizes);
      HaplessRuns(sizes, s);
      assert forall i | 0 <= i < |envs| :: Meets(envs[i], s.progress, sizes[i]);
      assert !Forced(s, sizes);
    } else {
      var e :| s.progress < e && Tries(s.progress, sizes, e) != 0
               && Tries(s.progress, sizes, e) + Attempts(s, e) >= MAX_ATTEMPTS;
      forall envs: seq<Env> | |envs| == |sizes| && forall i | 0 <= i < |envs| :: Meets(envs[i], s.progress, sizes[i])
        ensures RunsOf(envs, s).progress > s.progress || RunsOf(envs, s).fork.Some?
      {
        FiveTriesSettle(envs, sizes, s, e);
      }
    }
  }

  /** With progress every run that meets the log past it considers the same epoch, so five of them are
      needed and enough, less the attempts made. */
  lemma {:induction false} FiveRunsSettle(s: State, sizes: seq<nat>)
    requires 0 < s.progress && s.fork.None?
    ensures var n := Past(s.progress, sizes);
            Forced(s, sizes) <==> 0 < n && n + Attempts(s, s.progress + 1) >= MAX_ATTEMPTS
  {
    GettingOnIsForced(s, sizes);
    forall e | s.progress < e
      ensures Tries(s.progress, sizes, e) == if e == s.progress + 1 then Past(s.progress, sizes) else 0
    {
      TriesOfOne(s.progress, sizes, e);
    }
  }

  /** How many of the runs meet the log past progress. */
  function Past(progress: int, sizes: seq<nat>): nat {
    if sizes == [] then 0 else (if progress < sizes[0] then 1 else 0) + Past(progress, sizes[1..])
  }

  lemma {:induction false} TriesOfOne(progress: int, sizes: seq<nat>, e: int)
    requires 0 < progress < e
    ensures Tries(progress, sizes, e) == if e == progress + 1 then Past(progress, sizes) else 0
  {
    if sizes != [] { TriesOfOne(progress, sizes[1..], e); }
  }

  /** A run that never gets on: a new auditor, a verifier that errs, and a log one epoch longer each
      time. However many runs there are, nothing is recorded but attempts. */
  lemma {:induction false} TipOutrunsAuditor(n: nat, tip: nat)
    ensures var s := State(map[], 0, None);
            var t := RunsOf(AllHapless(Growing(n, tip)), s);
            t.progress == 0 && t.fork.None?
  {
    var s := State(map[], 0, None);
    forall e | 0 < e ensures Tries(0, Growing(n, tip), e) <= 1 { GrowingOnce(n, tip, e); }
    HaplessRuns(Growing(n, tip), s);
  }

  function Growing(n: nat, tip: nat): seq<nat>
    decreases n
  {
    if n == 0 then [] else [tip] + Growing(n - 1, tip + 1)
  }

  lemma {:induction false} GrowingOnce(n: nat, tip: nat, e: int)
    ensures Tries(0, Growing(n, tip), e) <= if e < tip then 0 else 1
    decreases n
  {
    if n > 0 { GrowingOnce(n - 1, tip + 1, e); }
  }

  // ----- what a record says

  /** The turn gets to a decision. */
  predicate Decides(env: Env, s: State, e: int) {
    && !env.cancelled(e) && !env.fails(Prior(e))
    && env.beacon(e, RoundAt(DecidedAt(env, s, e))).Some? && env.selects(e).Some?
  }

  /** The epoch was selected and resolved, and the verifier passed its proof. */
  predicate Attested(env: Env, e: int) {
    env.selects(e) == Some(true) && env.resolves(e) && env.judge(e) == Passed
  }

  /** The epoch was selected and could not be checked: not that it was refuted. */
  predicate Unchecked(env: Env, e: int) {
    env.selects(e) == Some(true) && !Attested(env, e) && (env.resolves(e) ==> env.judge(e) != Failed(Verify))
  }

  predicate Verified(s: State, e: int) {
    e in s.audits && s.audits[e].verified
  }

  /** What the turn records when no call of it fails, and what it goes on to do. */
  lemma {:induction false} TurnRecords(env: Env, s: State, e: int)
    requires Decides(env, s, e) && s.fork.None? && forall c :: !env.fails(c)
    ensures var t, selected := TurnOf(env, s, e), env.selects(e).value;
            var n := if selected then Attempts(s, e) + 1 else 0;
            var kind := if !selected || Attested(env, e) then NoKind
                        else if !Unchecked(env, e) then Verify
                        else if n >= 5 then Unavailable
                        else if env.resolves(e) && env.judge(e).Failed? then env.judge(e).kind
                        else Fetch;
            var at := DecidedAt(env, s, e);
            && PriorOf(t.s, e) == Some(Audit(selected, env.beacon(e, RoundAt(at)).value, at, n, Attested(env, e), kind))
            && t.s.progress == (if !selected || Attested(env, e) || (Unchecked(env, e) && n >= 5) then e
                                else s.progress)
            && t.s.fork == (if selected && !Attested(env, e) && !Unchecked(env, e) then Some(e) else None)
            && (t.Goes? <==> !selected || Attested(env, e))
  {
  }

  /** A verdict that is not a pass is recorded as it came before anything is made of it, so it stays on
      record when the store fails after that; and when it fails before, nothing changes. */
  lemma {:induction false} VerdictStays(env: Env, s: State, e: int)
    requires Decides(env, s, e) && env.selects(e) == Some(true) && !env.fails(PriorAgain(e))
    requires env.resolves(e) && env.judge(e).Failed?
    ensures env.fails(Write(e)) ==> TurnOf(env, s, e) == Ends(s)
    ensures !env.fails(Write(e)) && env.fails(Rewrite(e)) ==>
              var t, at := TurnOf(env, s, e), DecidedAt(env, s, e);
              && t.Ends? && t.s.progress == s.progress
              && PriorOf(t.s, e) == Some(Audit(true, env.beacon(e, RoundAt(at)).value, at, Attempts(s, e) + 1, false,
                                               env.judge(e).kind))
  {
  }

  /** A record a turn changes carries the selection, the time it keeps from before if it had a round,
      and else now, and the round the beacon gives for that time. */
  lemma {:induction false} TurnDates(env: Env, s: State, e: int)
    requires PriorOf(TurnOf(env, s, e).s, e) != PriorOf(s, e)
    ensures e in TurnOf(env, s, e).s.audits
    ensures var a, p := TurnOf(env, s, e).s.audits[e], PriorOf(s, e);
            && env.selects(e) == Some(a.sampled)
            && a.decidedAt == (if p.Some? && p.value.round != 0 then p.value.decidedAt else env.now(e))
            && env.beacon(e, RoundAt(a.decidedAt)) == Some(a.round)
  {
  }

  /** An epoch's record says verified after a turn exactly when the turn recorded it and the epoch was
      attested, or the turn did not record it and it said so before. */
  lemma {:induction false} TurnVerifiesExactly(env: Env, s: State, e: int)
    ensures Verified(TurnOf(env, s, e).s, e) <==>
            if Records(env, s, e) then Attested(env, e) else Verified(s, e)
  {
  }

  /** A turn moves progress exactly when it declines the epoch, finds it attested, or runs out of
      attempts to check it, and the store takes all that; and the record then says which. */
  lemma {:induction false} TurnAdvancesExactly(env: Env, s: State, e: int)
    requires s.progress != e
    ensures var t := TurnOf(env, s, e).s;
            t.progress == e <==>
            && Decides(env, s, e) && Records(env, s, e) && !env.fails(Advance(e))
            && (env.selects(e) == Some(false) || Attested(env, e)
                || (Unchecked(env, e) && Attempts(s, e) + 1 >= 5 && !env.fails(Rewrite(e))))
    ensures var t := TurnOf(env, s, e).s;
            t.progress == e ==>
              e in t.audits && var a := t.audits[e];
              && (env.selects(e) == Some(false) ==> !a.sampled && !a.verified && a.attempts == 0 && a.kind == NoKind)
              && (Attested(env, e) ==> a.sampled && a.verified && a.kind == NoKind)
              && (Unchecked(env, e) ==>
                    a.sampled && !a.verified && a.kind == Unavailable && a.attempts == Attempts(s, e) + 1 >= 5)
  {
  }

  lemma {:induction false} SweepVerifies(env: Env, s: State, first: int, limit: int, e: int)
    requires Verified(Sweep(env, s, first, limit), e) && !Verified(s, e)
    ensures Attested(env, e)
    decreases limit - first
  {
    if first <= limit {
      var t := TurnOf(env, s, first);
      TurnIsLocal(env, s, first);
      if e == first {
        TurnVerifiesExactly(env, s, e);
      } else {
        assert PriorOf(t.s, e) == PriorOf(s, e);
      }
      if t.Goes? && !Verified(t.s, e) { SweepVerifies(env, t.s, first + 1, limit, e); }
    }
  }

  /** Over any runs: an epoch comes to be recorded as verified only in a run that selected and resolved
      it and whose verifier passed its proof. */
  lemma {:induction false} VerifiedWerePassed(envs: seq<Env>, s: State, e: int) returns (i: nat)
    requires Verified(RunsOf(envs, s), e) && !Verified(s, e)
    ensures i < |envs| && Attested(envs[i], e)
    ensures !Verified(StateAt(envs, s, i), e) && Verified(StateAt(envs, s, i + 1), e)
    decreases |envs|
  {
    var t := RunOf(envs[0], s);
    FirstStates(envs, s);
    if Verified(t, e) {
      i := 0;
      var from := From(s, envs[0].size.value);
      SweepVerifies(envs[0], s, from + 1, Limit(envs[0], from, envs[0].size.value), e);
    } else {
      i := VerifiedWerePassed(envs[1..], t, e);
      LaterState(envs, s, i);
      LaterState(envs, s, i + 1);
      i := i + 1;
    }
  }

  // ----- how far a run goes

  /** The epoch before the first a run considers: progress, or the one before the tip. */
  function Before(s: State, size: nat): int {
    if s.progress == 0 then size - 1 else s.progress
  }

  /** The last a run may consider: the tip, or as many epochs on as a run may. */
  function Last(env: Env, s: State, size: nat): int {
    if env.perRound > 0 then Min(size, Before(s, size) + env.perRound) else size
  }

  lemma {:induction false} SweepStaysWithin(env: Env, s: State, e: int, limit: int, k: int)
    requires !(e <= k <= limit)
    ensures PriorOf(Sweep(env, s, e, limit), k) == PriorOf(s, k)
    decreases limit - e
  {
    if e <= limit {
      TurnIsLocal(env, s, e);
      var t := TurnOf(env, s, e);
      if t.Goes? { SweepStaysWithin(env, t.s, e + 1, limit, k); }
    }
  }

  lemma {:induction false} SweepAdvancesWithin(env: Env, s: State, e: int, limit: int)
    ensures var t := Sweep(env, s, e, limit); t.progress == s.progress || e <= t.progress <= limit
    decreases limit - e
  {
    if e <= limit {
      TurnIsLocal(env, s, e);
      var t := TurnOf(env, s, e);
      if t.Goes? { SweepAdvancesWithin(env, t.s, e + 1, limit); }
    }
  }

  lemma {:induction false} RunIsSweep(env: Env, s: State)
    requires env.size.Some?
    ensures RunOf(env, s) in {s, Sweep(env, s, Before(s, env.size.value) + 1, Last(env, s, env.size.value))}
  {
    var a := Before(s, env.size.value);
    assert Limit(env, a, env.size.value) == Last(env, s, env.size.value);
  }

  /** From s to t only records after a and up to b changed, and progress moved to one of those. */
  ghost predicate Within(s: State, t: State, a: int, b: int) {
    && (t.progress == s.progress || a < t.progress <= b)
    && forall k | PriorOf(t, k) != PriorOf(s, k) :: a < k <= b
  }

  lemma {:induction false} SweepIsWithin(env: Env, s: State, a: int, b: int)
    ensures Within(s, Sweep(env, s, a + 1, b), a, b)
  {
    SweepAdvancesWithin(env, s, a + 1, b);
    forall k | !(a < k <= b) ensures PriorOf(Sweep(env, s, a + 1, b), k) == PriorOf(s, k) {
      SweepStaysWithin(env, s, a + 1, b, k);
    }
  }

  /** A run changes no record, and moves progress to no epoch, but after progress, or from the tip if
      there is none, and no further than the tip or the number of epochs allowed a run. It changes
      nothing when the log is accused already or has no size, or when the store cannot say. */
  lemma {:induction false} RunStaysWithin(env: Env, s: State)
    ensures env.size.None? || s.fork.Some? || env.fails(IsForked) || env.fails(Get) || env.fails(Progress) ==>
              RunOf(env, s) == s
    ensures env.size.Some? ==>
              Within(s, RunOf(env, s), Before(s, env.size.value), Last(env, s, env.size.value))
  {
    if env.size.Some? {
      RunIsSweep(env, s);
      SweepIsWithin(env, s, Before(s, env.size.value), Last(env, s, env.size.value));
    }
  }

  /** Nothing fails or is cancelled at the epoch, and if it is selected its proof passes. */
  ghost predicate Fine(env: Env, e: int) {
    && !env.cancelled(e) && env.selects(e).Some? && (env.selects(e) == Some(true) ==> Attested(env, e))
    && !env.fails(Prior(e)) && !env.fails(PriorAgain(e)) && !env.fails(Write(e)) && !env.fails(Advance(e))
    && forall n :: env.beacon(e, n).Some?
  }

  lemma {:induction false} FineTurn(env: Env, s: State, e: int)
    requires Fine(env, e)
    ensures var t := TurnOf(env, s, e);
            t.Goes? && t.s.progress == e && e in t.s.audits && Says(env, t.s.audits[e], e) && t.s.fork == s.fork
  {
    assert env.beacon(e, RoundAt(DecidedAt(env, s, e))).Some?;
  }

  predicate Says(env: Env, a: Audit, e: int) {
    Some(a.sampled) == env.selects(e) && a.verified == a.sampled
  }

  /** All of these epochs are recorded, each verified exactly when it was selected. */
  ghost predicate AllSaid(env: Env, s: State, a: int, b: int) {
    forall k | a <= k <= b :: k in s.audits && Says(env, s.audits[k], k)
  }

  lemma {:induction false} SaidFirst(env: Env, s: State, t: State, a: int, b: int)
    requires a in s.audits && Says(env, s.audits[a], a) && PriorOf(t, a) == PriorOf(s, a) && AllSaid(env, t, a + 1, b)
    ensures AllSaid(env, t, a, b)
  {
  }

  lemma {:induction false} FineSweep(env: Env, s: State, e: int, limit: int)
    requires forall k | e <= k <= limit :: Fine(env, k)
    ensures AllSaid(env, Sweep(env, s, e, limit), e, limit)
    ensures e <= limit ==> Sweep(env, s, e, limit).progress == limit
    decreases limit - e
  {
    if e <= limit {
      FineTurn(env, s, e);
      var t := TurnOf(env, s, e).s;
      FineSweep(env, t, e + 1, limit);
      SweepStaysWithin(env, t, e + 1, limit, e);
      SaidFirst(env, t, Sweep(env, t, e + 1, limit), e, limit);
    }
  }

  /** And it goes as far as that when nothing fails and every selected epoch passes: all of them are
      recorded, each verified exactly when it was selected, and progress is the last. */
  lemma {:induction false} RunAuditsAll(env: Env, s: State)
    requires !env.fails(IsForked) && !env.fails(Get) && !env.fails(Progress) && s.fork.None? && env.size.Some?
    requires forall k | Before(s, env.size.value) < k <= Last(env, s, env.size.value) :: Fine(env, k)
    ensures var t, a, b := RunOf(env, s), Before(s, env.size.value), Last(env, s, env.size.value);
            (a < b ==> t.progress == b) && AllSaid(env, t, a + 1, b)
  {
    var a, b := Before(s, env.size.value), Last(env, s, env.size.value);
    assert Limit(env, a, env.size.value) == b;
    FineSweep(env, s, a + 1, b);
  }
}
