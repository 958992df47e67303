/**
 * Where the records of one field are (internal/akdtree/ranges.go:106-180).
 */
module Ranges {
  import opened Basics
  import opened Frames

  // ----- following a stream

  /** How far the run of one field goes; whether another field follows; whether it is an error. */
  datatype Lead = Lead(end: nat, ended: bool, failed: bool)

  function LeadFrom(data: Bytes, field: nat, pos: nat): (l: Lead)
    ensures pos <= l.end && (l.end == pos || l.end <= |data|)
    decreases |data| - pos
  {
    if pos >= |data| then Lead(pos, false, false)
    else
      match FrameAt(data, pos)
      case Malformed => Lead(pos, false, true)
      case Partial => Lead(pos, false, false)
      case Framed(r) =>
        if r.wire != 2 then Lead(pos, false, true)
        else if r.field != field then Lead(pos, true, false)
        else LeadFrom(data, field, r.end)
  }

  method ScanLeading(data: Bytes, field: nat, from: nat) returns (l: Lead)
    ensures l == LeadFrom(data, field, from)
  {
    var pos := from;
    while pos < |data|
      invariant LeadFrom(data, field, from) == LeadFrom(data, field, pos)
      decreases |data| - pos
    {
      match FrameAt(data, pos) {
        case Malformed => return Lead(pos, false, true);
        case Partial => return Lead(pos, false, false);
        case Framed(r) =>
          if r.wire != 2 { return Lead(pos, false, true); }
          if r.field != field { return Lead(pos, true, false); }
          pos := r.end;
      }
    }
    return Lead(pos, false, false);
  }

  /** The records rs stand one after another from offset from to offset end, each whole, each
      length-delimited and of the field. */
  ghost predicate Leads(data: Bytes, field: nat, from: nat, end: nat, rs: seq<Rec>)
    decreases |rs|
  {
    if rs == [] then from == end
    else
      && from < |data| && FrameAt(data, from) == Framed(rs[0]) && rs[0].wire == 2 && rs[0].field == field
      && Leads(data, field, rs[0].end, end, rs[1..])
  }

  /** What follows the run, at the offset where it is over. */
  ghost predicate Follows(data: Bytes, field: nat, l: Lead) {
    if l.end >= |data| then !l.ended && !l.failed
    else
      match FrameAt(data, l.end)
      case Framed(r) =>
        && (l.ended <==> r.wire == 2 && r.field != field)
        && (l.failed <==> r.wire != 2)
        && (l.ended || l.failed)
      case Partial => !l.ended && !l.failed
      case Malformed => l.failed && !l.ended
  }

  /** What ScanLeading returns. The whole records from the offset to the end returned are
      length-delimited and of the field; the run is over exactly when a whole length-delimited record
      of another field comes next; it is an error exactly when what comes next is malformed or a whole
      record that is not length-delimited; else the record that comes next is not all there, or the
      data ends. */
  lemma {:induction false} LeadIsExact(data: Bytes, field: nat, from: nat) returns (rs: seq<Rec>)
    ensures Leads(data, field, from, LeadFrom(data, field, from).end, rs)
    ensures Follows(data, field, LeadFrom(data, field, from))
    decreases |data| - from
  {
    rs := [];
    if from < |data| {
      var f := FrameAt(data, from);
      if f.Framed? && f.r.wire == 2 && f.r.field == field {
        var more := LeadIsExact(data, field, f.r.end);
        rs := [f.r] + more;
        assert rs[0] == f.r && rs[1..] == more;
      }
    }
  }

  /** Resuming on more input from where a scan stopped is scanning that input from the beginning. */
  lemma {:induction false} LeadResumes(p: Bytes, q: Bytes, field: nat, from: nat)
    requires Prefix(p, q) && from <= |p|
    ensures var l := LeadFrom(p, field, from);
            && LeadFrom(q, field, l.end) == LeadFrom(q, field, from)
            && (l.ended || l.failed ==> LeadFrom(q, field, from) == l)
    decreases |p| - from
  {
    if from < |p| {
      var f := FrameAt(p, from);
      if !f.Partial? { FrameStable(p, q, from); }
      if f.Framed? && f.r.wire == 2 && f.r.field == field { LeadResumes(p, q, field, f.r.end); }
    }
  }

  /** A caller reading a stream: each longer prefix is scanned from where the last one stopped,
      until the run has ended or an error is met. */
  function Follow(pieces: seq<Bytes>, field: nat, from: nat): Lead
    requires |pieces| > 0
  {
    var l := LeadFrom(pieces[0], field, from);
    if l.ended || l.failed || |pieces| == 1 then l else Follow(pieces[1..], field, l.end)
  }

  ghost predicate Growing(pieces: seq<Bytes>) {
    forall i | 0 <= i < |pieces| - 1 :: Prefix(pieces[i], pieces[i + 1])
  }

  lemma {:induction false} FirstReadIsPrefix(pieces: seq<Bytes>)
    requires |pieces| > 0 && Growing(pieces)
    ensures Prefix(pieces[0], pieces[|pieces| - 1])
  {
    if |pieces| > 1 {
      var n := |pieces[0]|;
      FirstReadIsPrefix(pieces[1..]);
      assert Prefix(pieces[0], pieces[1]);
      var last := pieces[|pieces| - 1];
      assert last[..n] == last[..|pieces[1]|][..n];
    }
  }

  /** However the stream is cut into pieces, following it gives what one scan of all of it gives. */
  lemma {:induction false} FollowingIsScanning(pieces: seq<Bytes>, field: nat, from: nat)
    requires |pieces| > 0 && Growing(pieces) && from <= |pieces[0]|
    ensures Follow(pieces, field, from) == LeadFrom(pieces[|pieces| - 1], field, from)
  {
    var l := LeadFrom(pieces[0], field, from);
    FirstReadIsPrefix(pieces);
    LeadResumes(pieces[0], pieces[|pieces| - 1], field, from);
    if !(l.ended || l.failed || |pieces| == 1) {
      assert Prefix(pieces[0], pieces[1]);
      FollowingIsScanning(pieces[1..], field, l.end);
    }
  }

  // ----- the ranges of a field

  datatype Range = Range(start: nat, end: nat)

  ghost predicate Covered(rs: seq<Range>, x: nat) {
    exists i :: 0 <= i < |rs| && rs[i].start <= x < rs[i].end
  }

  ghost predicate InField(recs: seq<Rec>, field: nat, x: nat) {
    exists i :: 0 <= i < |recs| && recs[i].field == field && recs[i].start <= x < recs[i].end
  }

  /** Nonempty ranges in order, no two of them overlapping or touching. */
  ghost predicate Separate(rs: seq<Range>) {
    && (forall i | 0 <= i < |rs| :: rs[i].start < rs[i].end)
    && (forall i, j | 0 <= i < j < |rs| :: rs[i].end < rs[j].start)
  }

  /** out covers the field's records among done, and nothing from pos on. */
  ghost predicate Measured(out: seq<Range>, done: seq<Rec>, field: nat, pos: nat) {
    && Separate(out)
    && (forall i | 0 <= i < |out| :: out[i].end <= pos)
    && (forall x :: Covered(out, x) <==> InField(done, field, x))
  }

  lemma {:induction false} MeasureSkip(out: seq<Range>, done: seq<Rec>, field: nat, r: Rec)
    requires Measured(out, done, field, r.start) && r.field != field && r.start <= r.end
    ensures Measured(out, done + [r], field, r.end)
  {
    forall x ensures InField(done + [r], field, x) <==> InField(done, field, x) {
      InFieldStep(done, field, r, x);
    }
  }

  lemma {:induction false} InFieldStep(done: seq<Rec>, field: nat, r: Rec, x: nat)
    ensures InField(done + [r], field, x) <==> InField(done, field, x) || (r.field == field && r.start <= x < r.end)
  {
    var all := done + [r];
    if InField(done, field, x) {
      var i :| 0 <= i < |done| && done[i].field == field && done[i].start <= x < done[i].end;
      assert all[i] == done[i];
    }
    if r.field == field && r.start <= x < r.end { assert all[|done|] == r; }
  }

  lemma {:induction false} CoveredStep(out: seq<Range>, s: Range, x: nat)
    ensures Covered(out + [s], x) <==> Covered(out, x) || s.start <= x < s.end
  {
    var all := out + [s];
    if Covered(out, x) {
      var i :| 0 <= i < |out| && out[i].start <= x < out[i].end;
      assert all[i] == out[i];
    }
    if s.start <= x < s.end { assert all[|out|] == s; }
  }

  lemma {:induction false} MeasureAppend(out: seq<Range>, done: seq<Rec>, field: nat, r: Rec)
    requires Measured(out, done, field, r.start) && r.field == field && r.start < r.end
    requires out != [] ==> out[|out| - 1].end < r.start
    ensures Measured(out + [Range(r.start, r.end)], done + [r], field, r.end)
  {
    forall x ensures Covered(out + [Range(r.start, r.end)], x) <==> InField(done + [r], field, x) {
      CoveredStep(out, Range(r.start, r.end), x);
      InFieldStep(done, field, r, x);
    }
  }

  lemma {:induction false} MeasureExtend(front: seq<Range>, s: Range, done: seq<Rec>, field: nat, r: Rec)
    requires Measured(front + [s], done, field, r.start) && r.field == field && s.end == r.start < r.end
    ensures Measured(front + [Range(s.start, r.end)], done + [r], field, r.end)
  {
    var t := Range(s.start, r.end);
    assert (front + [s])[|front|] == s;
    forall i | 0 <= i < |front| ensures front[i].start < front[i].end < s.start {
      assert (front + [s])[i] == front[i];
    }
    forall i, j | 0 <= i < j < |front| ensures front[i].end < front[j].start {
      assert (front + [s])[i] == front[i] && (front + [s])[j] == front[j];
    }
    assert Separate(front + [t]);
    forall x ensures Covered(front + [t], x) <==> InField(done + [r], field, x) {
      CoveredStep(front, s, x);
      CoveredStep(front, t, x);
      InFieldStep(done, field, r, x);
    }
  }

  /** The records already seen and those still to come. */
  function Scanned(data: Bytes, pos: nat, done: seq<Rec>): Option<seq<Rec>>
    requires pos <= |data|
  {
    var rest := Scan(data, pos);
    if rest.None? then None else Some(done + rest.value)
  }

  lemma {:induction false} ScanShifts(data: Bytes, pos: nat, done: seq<Rec>, r: Rec)
    requires pos < |data| && FrameAt(data, pos) == Framed(r)
    ensures Scanned(data, pos, done) == Scanned(data, r.end, done + [r])
  {
    var rest := Scan(data, r.end);
    if rest.Some? { assert done + ([r] + rest.value) == (done + [r]) + rest.value; }
  }

  /** The byte ranges of one field, adjacent records coalesced. */
  method FieldRanges(data: Bytes, field: nat) returns (out: Option<seq<Range>>)
    ensures out.Some? <==> Scan(data, 0).Some?
    ensures out.Some? ==>
              && Separate(out.value)
              && forall x :: Covered(out.value, x) <==> InField(Scan(data, 0).value, field, x)
  {
    var acc: seq<Range> := [];
    var pos := 0;
    ghost var done: seq<Rec> := [];
    assert forall rs: seq<Rec> {:trigger [] + rs} :: [] + rs == rs;
    assert Scanned(data, 0, []) == Scan(data, 0);
    while pos < |data|
      invariant pos <= |data| && Measured(acc, done, field, pos)
      invariant Scan(data, 0) == Scanned(data, pos, done)
      decreases |data| - pos
    {
      var f := FrameAt(data, pos);
      if !f.Framed? {
        return None;
      }
      var r := f.r;
      ScanShifts(data, pos, done, r);
      var n := |acc|;
      if r.field != field {
        MeasureSkip(acc, done, field, r);
      } else if n > 0 && acc[n - 1].end == r.start {
        assert acc[..n - 1] + [acc[n - 1]] == acc;
        MeasureExtend(acc[..n - 1], acc[n - 1], done, field, r);
        acc := acc[..n - 1] + [Range(acc[n - 1].start, r.end)];
      } else {
        MeasureAppend(acc, done, field, r);
        acc := acc + [Range(r.start, r.end)];
      }
      done := done + [r];
      pos := r.end;
    }
    assert done + [] == done;
    return Some(acc);
  }
}
