/**
 * The payload bytes of a field, counted and located (internal/akdtree/ranges.go:182-253).
 */
module Payload {
  import opened Basics
  import opened Frames
  import opened Ranges

  /** Which of the three nested loops: over a NodeLabel, an element, or the top-level fields. */
  datatype Level = InLabel | InElement | AtTop(field: nat)

  function Rank(level: Level): nat {
    match level
    case InLabel => 0
    case InElement => 1
    case AtTop(_) => 2
  }

  // ----- the spans the loops visit

  /** The payload spans a loop finds in one record. */
  function Pick(level: Level, data: Bytes, r: Rec): Option<seq<Range>>
    requires r.body <= r.end <= |data|
    decreases Rank(level), 0
  {
    match level
    case InLabel => Some(if r.wire == 2 && r.field == 1 then [Range(r.body, r.end)] else [])
    case InElement =>
      if r.wire != 2 then Some([])
      else if r.field == 1 then Collect(InLabel, data, r.body, r.end)
      else if r.field == 2 then Some([Range(r.body, r.end)])
      else Some([])
    case AtTop(f) =>
      if r.field != f || r.wire != 2 then Some([]) else Collect(InElement, data, r.body, r.end)
  }

  function Both(x: Option<seq<Range>>, y: Option<seq<Range>>): Option<seq<Range>> {
    if x.None? || y.None? then None else Some(x.value + y.value)
  }

  /** The spans from pos on, record by record, until hi is reached or passed; None at an error. The
      loops frame against all of data, not against the record they are inside. */
  function Collect(level: Level, data: Bytes, pos: nat, hi: nat): Option<seq<Range>>
    requires hi <= |data|
    decreases Rank(level), |data| - pos
  {
    if pos >= hi then Some([])
    else
      var f := FrameAt(data, pos);
      if !f.Framed? then None else Both(Pick(level, data, f.r), Collect(level, data, f.r.end, hi))
  }

  // ----- the running totals

  datatype Tally = Tally(offset: nat, total: nat, found: bool)

  /** One span counted: n is located in it when n falls within its share of the count. */
  function Count1(t: Tally, s: Range, n: int): Tally
    requires s.start <= s.end
  {
    var size := s.end - s.start;
    if !t.found && t.total <= n < t.total + size then Tally(s.start + n - t.total, t.total + size, true)
    else Tally(t.offset, t.total + size, t.found)
  }

  ghost predicate Proper(ss: seq<Range>) {
    forall i | 0 <= i < |ss| :: ss[i].start <= ss[i].end
  }

  function CountAll(t: Tally, ss: seq<Range>, n: int): Tally
    requires Proper(ss)
    decreases |ss|
  {
    if ss == [] then t else CountAll(Count1(t, ss[0], n), ss[1..], n)
  }

  lemma {:induction false} CountBoth(t: Tally, x: seq<Range>, y: seq<Range>, n: int)
    requires Proper(x) && Proper(y)
    ensures Proper(x + y) && CountAll(t, x + y, n) == CountAll(CountAll(t, x, n), y, n)
    decreases |x|
  {
    if x == [] {
      assert x + y == y;
    } else {
      assert (x + y)[1..] == x[1..] + y;
      CountBoth(Count1(t, x[0], n), x[1..], y, n);
    }
  }

  lemma {:induction false} CollectIsProper(level: Level, data: Bytes, pos: nat, hi: nat)
    requires hi <= |data| && Collect(level, data, pos, hi).Some?
    ensures Proper(Collect(level, data, pos, hi).value)
    decreases Rank(level), |data| - pos
  {
    if pos < hi {
      var r := FrameAt(data, pos).r;
      PickIsProper(level, data, r);
      CollectIsProper(level, data, r.end, hi);
    }
  }

  lemma {:induction false} PickIsProper(level: Level, data: Bytes, r: Rec)
    requires r.body <= r.end <= |data| && Pick(level, data, r).Some?
    ensures Proper(Pick(level, data, r).value)
    decreases Rank(level), 0
  {
    if r.wire == 2 {
      match level
      case InLabel =>
      case InElement => if r.field == 1 { CollectIsProper(InLabel, data, r.body, r.end); }
      case AtTop(f) => if r.field == f { CollectIsProper(InElement, data, r.body, r.end); }
    }
  }

  /** The totals after the spans of a loop, or None where the loop errs. */
  function After(t: Tally, ss: Option<seq<Range>>, n: int): Option<Tally>
    requires ss.Some? ==> Proper(ss.value)
  {
    if ss.None? then None else Some(CountAll(t, ss.value, n))
  }

  function AfterLoop(t: Tally, level: Level, data: Bytes, pos: nat, hi: nat, n: int): Option<Tally>
    requires hi <= |data|
  {
    var ss := Collect(level, data, pos, hi);
    if ss.Some? then CollectIsProper(level, data, pos, hi); After(t, ss, n) else None
  }

  function AfterRecord(t: Tally, level: Level, data: Bytes, r: Rec, n: int): Option<Tally>
    requires r.body <= r.end <= |data|
  {
    var ss := Pick(level, data, r);
    if ss.Some? then PickIsProper(level, data, r); After(t, ss, n) else None
  }

  /** One turn of any of the loops. */
  lemma {:induction false} TallyStep(t: Tally, level: Level, data: Bytes, pos: nat, hi: nat, n: int)
    requires pos < hi <= |data| && FrameAt(data, pos).Framed?
    ensures var r := FrameAt(data, pos).r;
            var u := AfterRecord(t, level, data, r, n);
            AfterLoop(t, level, data, pos, hi, n)
            == if u.None? then None else AfterLoop(u.value, level, data, r.end, hi, n)
  {
    var r := FrameAt(data, pos).r;
    var x, y := Pick(level, data, r), Collect(level, data, r.end, hi);
    if x.Some? && y.Some? {
      PickIsProper(level, data, r);
      CollectIsProper(level, data, r.end, hi);
      CountBoth(t, x.value, y.value, n);
    }
  }

  // ----- the source's loops

  method LabelLoop(data: Bytes, lo: nat, hi: nat, n: int, t0: Tally) returns (t: Option<Tally>)
    requires hi <= |data|
    ensures t == AfterLoop(t0, InLabel, data, lo, hi, n)
  {
    var s, acc := lo, t0;
    while s < hi
      invariant AfterLoop(t0, InLabel, data, lo, hi, n) == AfterLoop(acc, InLabel, data, s, hi, n)
      decreases |data| - s
    {
      var f := FrameAt(data, s);
      if !f.Framed? {
        return None;
      }
      TallyStep(acc, InLabel, data, s, hi, n);
      if f.r.field == 1 && f.r.wire == 2 {
        acc := Count1(acc, Range(f.r.body, f.r.end), n);
      }
      s := f.r.end;
    }
    return Some(acc);
  }

  method ElementLoop(data: Bytes, lo: nat, hi: nat, n: int, t0: Tally) returns (t: Option<Tally>)
    requires hi <= |data|
    ensures t == AfterLoop(t0, InElement, data, lo, hi, n)
  {
    var q, acc := lo, t0;
    while q < hi
      invariant AfterLoop(t0, InElement, data, lo, hi, n) == AfterLoop(acc, InElement, data, q, hi, n)
      decreases |data| - q
    {
      var f := FrameAt(data, q);
      if !f.Framed? {
        return None;
      }
      TallyStep(acc, InElement, data, q, hi, n);
      q := f.r.end;
      if f.r.wire != 2 {
        continue;
      }
      match f.r.field {
        case 1 =>
          var u := LabelLoop(data, f.r.body, f.r.end, n, acc);
          if u.None? {
            return None;
          }
          acc := u.value;
        case 2 => acc := Count1(acc, Range(f.r.body, f.r.end), n);
        case _ =>
      }
    }
    return Some(acc);
  }

  /** PayloadOffset: where the n-th payload byte of the field is, and how many there are. */
  method PayloadOffset(data: Bytes, field: nat, n: int) returns (t: Option<Tally>)
    ensures t == AfterLoop(Tally(0, 0, false), AtTop(field), data, 0, |data|, n)
  {
    var pos, acc := 0, Tally(0, 0, false);
    while pos < |data|
      invariant AfterLoop(Tally(0, 0, false), AtTop(field), data, 0, |data|, n)
             == AfterLoop(acc, AtTop(field), data, pos, |data|, n)
      decreases |data| - pos
    {
      var f := FrameAt(data, pos);
      if !f.Framed? {
        return None;
      }
      TallyStep(acc, AtTop(field), data, pos, |data|, n);
      pos := f.r.end;
      if f.r.field != field || f.r.wire != 2 {
        continue;
      }
      var u := ElementLoop(data, f.r.body, f.r.end, n, acc);
      if u.None? {
        return None;
      }
      acc := u.value;
    }
    return Some(acc);
  }

  // ----- what the totals mean

  function Run(s: Range): seq<nat>
    requires s.start <= s.end
  {
    seq(s.end - s.start, i requires 0 <= i => s.start + i)
  }

  /** The offsets of all the bytes in the spans, in order. */
  function Positions(ss: seq<Range>): seq<nat>
    requires Proper(ss)
  {
    if ss == [] then [] else Run(ss[0]) + Positions(ss[1..])
  }

  /** The count is the number of bytes; the n-th of them is found exactly when there is one. */
  lemma {:induction false} CountLocates(t: Tally, ss: seq<Range>, n: int)
    requires Proper(ss) && !t.found && (n < 0 || t.total <= n)
    ensures var u, ps := CountAll(t, ss, n), Positions(ss);
            && u.total == t.total + |ps|
            && (u.found <==> t.total <= n < u.total)
            && u.offset == (if u.found then ps[n - t.total] else t.offset)
    decreases |ss|
  {
    if ss != [] {
      var t1 := Count1(t, ss[0], n);
      assert Positions(ss) == Run(ss[0]) + Positions(ss[1..]);
      if t1.found {
        assert Positions(ss)[n - t.total] == Run(ss[0])[n - t.total];
        CountFound(t1, ss[1..], n);
      } else {
        CountLocates(t1, ss[1..], n);
        var rest := Positions(ss[1..]);
        if t1.total <= n < t1.total + |rest| {
          assert Positions(ss)[n - t.total] == rest[n - t1.total];
        }
      }
    }
  }

  lemma {:induction false} CountFound(t: Tally, ss: seq<Range>, n: int)
    requires Proper(ss) && t.found
    ensures CountAll(t, ss, n) == Tally(t.offset, t.total + |Positions(ss)|, true)
    decreases |ss|
  {
    if ss != [] { CountFound(Count1(t, ss[0], n), ss[1..], n); }
  }

  /** Spans in order, from lo to hi. */
  ghost predicate Ordered(ss: seq<Range>, lo: nat, hi: nat) {
    && (forall i | 0 <= i < |ss| :: lo <= ss[i].start <= ss[i].end <= hi)
    && (forall i, j | 0 <= i < j < |ss| :: ss[i].end <= ss[j].start)
  }

  ghost predicate Ascending(ps: seq<nat>, lo: nat, hi: nat) {
    && (forall i, j | 0 <= i < j < |ps| :: ps[i] < ps[j])
    && (forall i | 0 <= i < |ps| :: lo <= ps[i] < hi)
  }

  lemma {:induction false} AscendingBoth(a: seq<nat>, b: seq<nat>, lo: nat, mid: nat, hi: nat)
    requires lo <= mid <= hi && Ascending(a, lo, mid) && Ascending(b, mid, hi)
    ensures Ascending(a + b, lo, hi)
  {
  }

  /** The payload offsets of spans in order go up. */
  lemma {:induction false} PositionsAscend(ss: seq<Range>, lo: nat, hi: nat)
    requires Ordered(ss, lo, hi)
    ensures Proper(ss) && Ascending(Positions(ss), lo, hi)
    decreases |ss|
  {
    if ss != [] {
      PositionsAscend(ss[1..], ss[0].end, hi);
      assert Ascending(Run(ss[0]), lo, ss[0].end);
      AscendingBoth(Run(ss[0]), Positions(ss[1..]), lo, ss[0].end, hi);
    }
  }

  lemma {:induction false} PositionsCover(ss: seq<Range>, x: nat)
    requires Proper(ss)
    ensures x in Positions(ss) <==> Covered(ss, x)
  {
    if ss != [] {
      var s, rest := ss[0], ss[1..];
      PositionsCover(rest, x);
      if s.start <= x < s.end { assert Run(s)[x - s.start] == x; }
      if Covered(rest, x) {
        var i :| 0 <= i < |rest| && rest[i].start <= x < rest[i].end;
        assert ss[i + 1] == rest[i];
      }
      if Covered(ss, x) && !(s.start <= x < s.end) {
        var i :| 0 <= i < |ss| && ss[i].start <= x < ss[i].end;
        assert rest[i - 1] == ss[i];
      }
    }
  }
}
