/**
 * Decoding a proof (internal/akdtree/decode.go:26-207).
 */
module Decoding {
  import opened Basics
  import opened Labels
  import opened AkdTree
  import opened Varint
  import opened Frames

  datatype Proof = Proof(inserted: seq<Element>, kept: seq<Element>)

  // ----- one element

  /** copy(e.Label[:], lb): the first bytes are replaced, the rest stay. */
  function Overlay(path: Label, lb: Bytes): Label
    requires |lb| <= 32
  {
    lb + path[|lb|..]
  }

  /** The label_val fields of a NodeLabel, each copied over what was there. */
  function LabelChunks(cs: seq<Chunk>, path: Label): Option<Label> {
    if cs == [] then Some(path)
    else if cs[0].field != 1 then LabelChunks(cs[1..], path)
    else if |cs[0].body| > 32 then None
    else LabelChunks(cs[1..], Overlay(path, cs[0].body))
  }

  datatype Parsed = Parsed(path: Label, value: Digest, sawLabel: bool, sawValue: bool)

  /** One field of an AzksElement: the switch of decodeElement's callback. */
  function ParseField(c: Chunk, p: Parsed): Option<Parsed> {
    if c.field == 1 then
      var inner := Walk(c.body);
      if inner.None? then None
      else
        var path := LabelChunks(inner.value, p.path);
        if path.None? then None else Some(p.(path := path.value, sawLabel := true))
    else if c.field == 2 then
      if |c.body| != 32 then None else Some(p.(value := c.body, sawValue := true))
    else Some(p)
  }

  /** The fields of an AzksElement, in order. */
  function ElementChunks(cs: seq<Chunk>, p: Parsed): Option<Parsed> {
    if cs == [] then Some(p)
    else
      var q := ParseField(cs[0], p);
      if q.None? then None else ElementChunks(cs[1..], q.value)
  }

  /** readLabelLen: the last varint field 2 of a NodeLabel, cut to 32 bits; a third framing loop. */
  function LabelLenFrom(data: Bytes, pos: nat, out: nat): Option<nat>
    requires pos <= |data|
    decreases |data| - pos
  {
    if pos == |data| then Some(out)
    else
      var key := Read(data, pos);
      if !key.Value? then None
      else
        var p, field := pos + key.n, key.v / 8;
        match key.v % 8
        case 0 =>
          var v := Read(data, p);
          if !v.Value? then None
          else LabelLenFrom(data, p + v.n, if field == 2 then v.v % 0x1_0000_0000 else out)
        case 2 =>
          var l := Read(data, p);
          if !l.Value? || |data| - (p + l.n) < l.v then None else LabelLenFrom(data, p + l.n + l.v, out)
        case 5 => if |data| - p < 4 then None else LabelLenFrom(data, p + 4, out)
        case 1 => if |data| - p < 8 then None else LabelLenFrom(data, p + 8, out)
        case _ => None
  }

  /** label_len over all the NodeLabels of an element. */
  function LenChunks(cs: seq<Chunk>, out: nat): Option<nat> {
    if cs == [] then Some(out)
    else if cs[0].field != 1 then LenChunks(cs[1..], out)
    else
      var n := LabelLenFrom(cs[0].body, 0, out);
      if n.None? then None else LenChunks(cs[1..], n.value)
  }

  function DecodeElement(body: Bytes): Option<Element> {
    var cs := Walk(body);
    if cs.None? then None
    else
      var p := ElementChunks(cs.value, Parsed(Repeat(0, 32), Repeat(0, 32), false, false));
      if p.None? then None
      else
        var n := LenChunks(cs.value, 0);
        if n.None? || !p.value.sawLabel || !p.value.sawValue || n.value > 256 then None
        else Some(Element(p.value.path, n.value, p.value.value))
  }

  // ----- the whole proof

  /** One field of the message put before the rest: fields 1 and 2 are kept, others only decoded. */
  function Place(field: nat, e: Option<Element>, rest: Option<Proof>): Option<Proof> {
    if e.None? || rest.None? then None
    else if field == 1 then Some(Proof([e.value] + rest.value.inserted, rest.value.kept))
    else if field == 2 then Some(Proof(rest.value.inserted, [e.value] + rest.value.kept))
    else rest
  }

  /** The second pass: every length-delimited field must be an element. */
  function DecodeChunks(cs: seq<Chunk>): Option<Proof> {
    if cs == [] then Some(Proof([], []))
    else Place(cs[0].field, DecodeElement(cs[0].body), DecodeChunks(cs[1..]))
  }

  function Decode(data: Bytes): Option<Proof> {
    var cs := Walk(data);
    if cs.None? then None else DecodeChunks(cs.value)
  }

  // ----- the source's loops

  /** What a record gives walk, before what the rest gives it. */
  function Glue(c: seq<Chunk>, more: Option<seq<Chunk>>): Option<seq<Chunk>> {
    if more.None? then None else Some(c + more.value)
  }

  /** From p walk makes the calls c, and then those from next on. */
  ghost predicate Glued(data: Bytes, p: nat, c: seq<Chunk>, next: nat) {
    p <= |data| && next <= |data| && WalkFrom(data, p) == Glue(c, WalkFrom(data, next))
  }

  lemma {:induction false} WalkTail(data: Bytes, pos: nat, acc: seq<Chunk>, c: seq<Chunk>, next: nat)
    requires Glued(data, pos, c, next)
    ensures Walked(data, pos, acc) == Walked(data, next, acc + c)
  {
    var more := WalkFrom(data, next);
    if more.Some? { assert acc + (c + more.value) == (acc + c) + more.value; }
  }

  /** The calls already made and those still to come. */
  function Walked(data: Bytes, pos: nat, acc: seq<Chunk>): Option<seq<Chunk>>
    requires pos <= |data|
  {
    Glue(acc, WalkFrom(data, pos))
  }

  datatype Step = Step(c: seq<Chunk>, next: nat) | Stop

  /** The body of walk's loop. */
  method WalkTurn(data: Bytes, pos: nat) returns (s: Step)
    requires pos < |data|
    ensures match s
            case Stop => WalkFrom(data, pos) == None
            case Step(c, next) => pos < next && Glued(data, pos, c, next)
  {
    var key := Read(data, pos);
    assert forall m: seq<Chunk> {:trigger [] + m} :: [] + m == m;
    if !key.Value? {
      return Stop;
    }
    var p, field := pos + key.n, key.v / 8;
    match key.v % 8 {
      case 2 =>
        var l := Read(data, p);
        if !l.Value? || |data| - (p + l.n) < l.v {
          return Stop;
        }
        var next := p + l.n + l.v;
        return Step([Chunk(field, data[p + l.n..next])], next);
      case 0 =>
        var v := Read(data, p);
        return if v.Value? then Step([], p + v.n) else Stop;
      case 5 => return if |data| - p < 4 then Stop else Step([], p + 4);
      case 1 => return if |data| - p < 8 then Stop else Step([], p + 8);
      case _ => return Stop;
    }
  }

  /** The loop of walk, its callback's calls collected. */
  method WalkAll(data: Bytes) returns (cs: Option<seq<Chunk>>)
    ensures cs == Walk(data)
  {
    var pos := 0;
    var acc: seq<Chunk> := [];
    assert forall m: seq<Chunk> {:trigger [] + m} :: [] + m == m;
    while pos < |data|
      invariant pos <= |data| && Walk(data) == Walked(data, pos, acc)
      decreases |data| - pos
    {
      var s := WalkTurn(data, pos);
      if s.Stop? {
        return None;
      }
      WalkTail(data, pos, acc, s.c, s.next);
      acc := acc + s.c;
      pos := s.next;
    }
    assert acc + [] == acc;
    return Some(acc);
  }

  /** How many of the chunks are of one field. */
  function Count(cs: seq<Chunk>, field: nat): nat {
    if cs == [] then 0 else (if cs[0].field == field then 1 else 0) + Count(cs[1..], field)
  }

  /** The second pass appends exactly as many elements as the first counted. */
  lemma {:induction false} CountsAreExact(cs: seq<Chunk>)
    requires DecodeChunks(cs).Some?
    ensures |DecodeChunks(cs).value.inserted| == Count(cs, 1)
    ensures |DecodeChunks(cs).value.kept| == Count(cs, 2)
  {
    if cs != [] { CountsAreExact(cs[1..]); }
  }

  /** Decode: count, allocate exactly, fill. The arrays are full when the second pass ends. */
  method DecodeProof(data: Bytes) returns (ok: bool, inserted: array<Element>, kept: array<Element>)
    ensures ok <==> Decode(data).Some?
    ensures ok ==> Decode(data) == Some(Proof(inserted[..], kept[..]))
    ensures fresh(inserted) && fresh(kept) && inserted != kept
  {
    var w := WalkAll(data);
    if w.None? {
      inserted, kept := new Element[0], new Element[0];
      return false, inserted, kept;
    }
    ok, inserted, kept := FillBoth(w.value);
  }

  method FillBoth(cs: seq<Chunk>) returns (ok: bool, inserted: array<Element>, kept: array<Element>)
    ensures ok <==> DecodeChunks(cs).Some?
    ensures ok ==> DecodeChunks(cs) == Some(Proof(inserted[..], kept[..]))
    ensures fresh(inserted) && fresh(kept) && inserted != kept
  {
    var ni, nu := CountFields(cs);
    inserted, kept := new Element[ni], new Element[nu];
    var i, j := 0, 0;
    assert cs[0..] == cs && inserted[..0] == [] && kept[..0] == [];
    JoinNothing(DecodeChunks(cs));
    for k := 0 to |cs|
      invariant i + Count(cs[k..], 1) == inserted.Length && j + Count(cs[k..], 2) == kept.Length
      invariant DecodeChunks(cs) == Joined(inserted[..i], kept[..j], DecodeChunks(cs[k..]))
    {
      var c := cs[k];
      assert cs[k..][1..] == cs[k + 1..];
      var e := DecodeElement(c.body);
      PlaceJoins(inserted[..i], kept[..j], c.field, e, DecodeChunks(cs[k + 1..]));
      if e.None? {
        return false, inserted, kept;
      }
      match c.field {
        case 1 =>
          Fill(inserted, i, e.value);
          i := i + 1;
        case 2 =>
          Fill(kept, j, e.value);
          j := j + 1;
        case _ =>
      }
    }
    assert inserted[..] == inserted[..i] && kept[..] == kept[..j];
    assert inserted[..i] + [] == inserted[..i] && kept[..j] + [] == kept[..j];
    return true, inserted, kept;
  }

  /** Elements already decoded, and what the rest decodes to. */
  function Joined(a: seq<Element>, b: seq<Element>, rest: Option<Proof>): Option<Proof> {
    if rest.None? then None else Some(Proof(a + rest.value.inserted, b + rest.value.kept))
  }

  lemma {:induction false} PlaceJoins(a: seq<Element>, b: seq<Element>, field: nat, e: Option<Element>,
          rest: Option<Proof>)
    ensures Joined(a, b, Place(field, e, rest)) ==
            if e.None? then None
            else if field == 1 then Joined(a + [e.value], b, rest)
            else if field == 2 then Joined(a, b + [e.value], rest)
            else Joined(a, b, rest)
  {
    if e.Some? && rest.Some? {
      assert a + ([e.value] + rest.value.inserted) == (a + [e.value]) + rest.value.inserted;
      assert b + ([e.value] + rest.value.kept) == (b + [e.value]) + rest.value.kept;
    }
  }

  lemma {:induction false} JoinNothing(p: Option<Proof>)
    ensures Joined([], [], p) == p
  {
    assert p.Some? ==> [] + p.value.inserted == p.value.inserted && [] + p.value.kept == p.value.kept;
  }

  /** Stores the element in the next free place of its array. */
  method Fill(a: array<Element>, i: nat, e: Element)
    requires i < a.Length
    modifies a
    ensures a[..i + 1] == old(a[..i]) + [e]
  {
    a[i] := e;
  }

  method CountFields(cs: seq<Chunk>) returns (ni: nat, nu: nat)
    ensures ni == Count(cs, 1) && nu == Count(cs, 2)
  {
    ni, nu := 0, 0;
    assert cs[0..] == cs;
    for k := 0 to |cs|
      invariant 0 <= ni && 0 <= nu && ni + Count(cs[k..], 1) == Count(cs, 1)
      invariant nu + Count(cs[k..], 2) == Count(cs, 2)
    {
      assert cs[k..][1..] == cs[k + 1..];
      match cs[k].field {
        case 1 => ni := ni + 1;
        case 2 => nu := nu + 1;
        case _ =>
      }
    }
  }

  method ReadLabelLen(nodeLabel: Bytes, old_: nat) returns (out: Option<nat>)
    ensures out == LabelLenFrom(nodeLabel, 0, old_)
  {
    var pos: nat, n: nat := 0, old_;
    while pos < |nodeLabel|
      invariant pos <= |nodeLabel|
      invariant LabelLenFrom(nodeLabel, 0, old_) == LabelLenFrom(nodeLabel, pos, n)
      decreases |nodeLabel| - pos
    {
      var key := Read(nodeLabel, pos);
      if !key.Value? {
        return None;
      }
      var p := pos + key.n;
      match key.v % 8 {
        case 0 =>
          var v := Read(nodeLabel, p);
          if !v.Value? {
            return None;
          }
          if key.v / 8 == 2 {
            n := v.v % 0x1_0000_0000;
          }
          pos := p + v.n;
        case 2 =>
          var l := Read(nodeLabel, p);
          if !l.Value? || |nodeLabel| - (p + l.n) < l.v {
            return None;
          }
          pos := p + l.n + l.v;
        case 5 =>
          if |nodeLabel| - p < 4 {
            return None;
          }
          pos := p + 4;
        case 1 =>
          if |nodeLabel| - p < 8 {
            return None;
          }
          pos := p + 8;
        case _ => return None;
      }
    }
    return Some(n);
  }

  // ----- the third framer, and concatenation

  /** readLabelLen accepts exactly the messages walk accepts. */
  lemma {:induction false} LabelLenAccepts(data: Bytes, pos: nat, out: nat)
    requires pos <= |data|
    ensures LabelLenFrom(data, pos, out).Some? <==> WalkFrom(data, pos).Some?
    decreases |data| - pos
  {
    if pos < |data| {
      LabelLenStep(data, pos, out);
      WalkStep(data, pos);
      var f := FrameAt(data, pos);
      if f.Framed? { LabelLenAccepts(data, f.r.end, LenAfter(data, f.r, out)); }
    }
  }

  /** The length known after a record: the record's own value if it is varint field 2. */
  function LenAfter(data: Bytes, r: Rec, out: nat): nat
    requires r.start <= |data|
  {
    var key := Read(data, r.start);
    if r.wire == 0 && r.field == 2 && key.Value? && Read(data, r.start + key.n).Value? then
      Read(data, r.start + key.n).v % 0x1_0000_0000
    else out
  }

  lemma {:induction false} LabelLenStep(data: Bytes, pos: nat, out: nat)
    requires pos < |data|
    ensures var f := FrameAt(data, pos);
            LabelLenFrom(data, pos, out) ==
            if f.Framed? then LabelLenFrom(data, f.r.end, LenAfter(data, f.r, out)) else None
  {
  }

  // ----- exactly what is accepted, and what it decodes to

  /** The chunks of one field, in order. */
  function Of(cs: seq<Chunk>, field: nat): seq<Chunk> {
    if cs == [] then [] else (if cs[0].field == field then [cs[0]] else []) + Of(cs[1..], field)
  }

  lemma {:induction false} OfFirst(cs: seq<Chunk>, field: nat)
    requires cs != []
    ensures var more := Of(cs[1..], field);
            if cs[0].field == field then Of(cs, field) != [] && Of(cs, field)[0] == cs[0] && Of(cs, field)[1..] == more
            else Of(cs, field) == more
  {
  }

  /** The elements are what the chunks decode to, one by one. */
  ghost predicate Decoded(es: seq<Element>, cs: seq<Chunk>) {
    |es| == |cs| && forall i | 0 <= i < |cs| :: DecodeElement(cs[i].body) == Some(es[i])
  }

  lemma {:induction false} DecodedMore(es: seq<Element>, c: Chunk, e: Element, cs: seq<Chunk>)
    requires Decoded(es, cs) && DecodeElement(c.body) == Some(e)
    ensures Decoded([e] + es, [c] + cs)
  {
  }

  lemma {:induction false} ChunksExactly(cs: seq<Chunk>)
    ensures DecodeChunks(cs).Some? <==> forall i | 0 <= i < |cs| :: DecodeElement(cs[i].body).Some?
    ensures DecodeChunks(cs).Some? ==>
              Decoded(DecodeChunks(cs).value.inserted, Of(cs, 1)) && Decoded(DecodeChunks(cs).value.kept, Of(cs, 2))
  {
    if cs != [] {
      ChunksExactly(cs[1..]);
      OfFirst(cs, 1);
      OfFirst(cs, 2);
      assert forall i | 0 <= i < |cs| - 1 :: cs[i + 1] == cs[1..][i];
      var rest := DecodeChunks(cs[1..]);
      if DecodeChunks(cs).Some? {
        var e := DecodeElement(cs[0].body).value;
        assert Of(cs, 1) == (if cs[0].field == 1 then [cs[0]] else []) + Of(cs[1..], 1);
        if cs[0].field == 1 { DecodedMore(rest.value.inserted, cs[0], e, Of(cs[1..], 1)); }
        if cs[0].field == 2 { DecodedMore(rest.value.kept, cs[0], e, Of(cs[1..], 2)); }
      }
    }
  }

  /** A proof is accepted exactly when it is framed and every length-delimited field of it, of whatever
      number, is an element; and its lists are those of fields 1 and 2, in order. */
  lemma {:induction false} DecodesExactly(data: Bytes)
    ensures Decode(data).Some? <==>
            Walk(data).Some? && forall i | 0 <= i < |Walk(data).value| :: DecodeElement(Walk(data).value[i].body).Some?
    ensures Decode(data).Some? ==>
              && Decoded(Decode(data).value.inserted, Of(Walk(data).value, 1))
              && Decoded(Decode(data).value.kept, Of(Walk(data).value, 2))
  {
    if Walk(data).Some? { ChunksExactly(Walk(data).value); }
  }

  // ----- one element

  /** The bytes last written at place j: those of the last of the strings that reaches it. */
  function Written(lvs: seq<Bytes>, base: Label, j: nat): byte
    requires j < 32
  {
    if lvs == [] then base[j]
    else
      var last := lvs[|lvs| - 1];
      if j < |last| then last[j] else Written(lvs[..|lvs| - 1], base, j)
  }

  lemma {:induction false} WrittenFirst(lvs: seq<Bytes>, base: Label, j: nat)
    requires j < 32 && lvs != [] && |lvs[0]| <= 32
    ensures Written(lvs, base, j) == Written(lvs[1..], Overlay(base, lvs[0]), j)
  {
    var n := |lvs| - 1;
    if n > 0 {
      assert lvs[1..][..n - 1] == lvs[..n][1..] && lvs[1..][n - 1] == lvs[n];
      WrittenFirst(lvs[..n], base, j);
    } else {
      assert lvs[1..] == [] && lvs[..0] == [];
    }
  }

  function Bodies(cs: seq<Chunk>): seq<Bytes> {
    if cs == [] then [] else [cs[0].body] + Bodies(cs[1..])
  }

  /** The path is what the strings leave when written over base, and they fit. */
  ghost predicate Overlaid(path: Option<Label>, lvs: seq<Bytes>, base: Label) {
    && (path.Some? <==> forall i | 0 <= i < |lvs| :: |lvs[i]| <= 32)
    && (path.Some? ==> forall j | 0 <= j < 32 :: path.value[j] == Written(lvs, base, j))
  }

  lemma {:induction false} OverlaidFirst(path: Option<Label>, x: Bytes, lvs: seq<Bytes>, base: Label)
    requires |x| <= 32 && Overlaid(path, lvs, Overlay(base, x))
    ensures Overlaid(path, [x] + lvs, base)
  {
    var all := [x] + lvs;
    assert all[1..] == lvs && forall i | 0 <= i < |lvs| :: all[i + 1] == lvs[i];
    forall j | 0 <= j < 32 ensures Written(all, base, j) == Written(lvs, Overlay(base, x), j) {
      WrittenFirst(all, base, j);
    }
  }

  lemma {:induction false} OverlaidLong(x: Bytes, lvs: seq<Bytes>, base: Label)
    requires |x| > 32
    ensures Overlaid(None, [x] + lvs, base)
  {
    assert ([x] + lvs)[0] == x;
  }

  lemma {:induction false} LabelExactly(cs: seq<Chunk>, base: Label)
    ensures Overlaid(LabelChunks(cs, base), Bodies(Of(cs, 1)), base)
    decreases |cs|
  {
    if cs != [] {
      OfFirst(cs, 1);
      if cs[0].field != 1 {
        LabelExactly(cs[1..], base);
      } else {
        var x := cs[0].body;
        assert Bodies(Of(cs, 1)) == [x] + Bodies(Of(cs[1..], 1));
        if |x| > 32 {
          OverlaidLong(x, Bodies(Of(cs[1..], 1)), base);
        } else {
          LabelExactly(cs[1..], Overlay(base, x));
          OverlaidFirst(LabelChunks(cs, base), x, Bodies(Of(cs[1..], 1)), base);
        }
      }
    }
  }

  lemma {:induction false} WrittenBoth(a: seq<Bytes>, b: seq<Bytes>, base: Label, path: Label, j: nat)
    requires j < 32 && path[j] == Written(a, base, j)
    ensures Written(a + b, base, j) == Written(b, path, j)
    decreases |b|
  {
    if b == [] {
      assert a + b == a;
    } else {
      var n := |b| - 1;
      assert (a + b)[..|a| + n] == a + b[..n] && (a + b)[|a| + n] == b[n];
      WrittenBoth(a, b[..n], base, path, j);
    }
  }

  lemma {:induction false} OverlaidBoth(path: Label, q: Option<Label>, a: seq<Bytes>, b: seq<Bytes>, base: Label)
    requires Overlaid(Some(path), a, base) && Overlaid(q, b, path)
    ensures Overlaid(q, a + b, base)
  {
    var all := a + b;
    assert forall i | 0 <= i < |a| :: all[i] == a[i];
    assert forall i | 0 <= i < |b| :: all[|a| + i] == b[i];
    forall j | 0 <= j < 32 ensures Written(all, base, j) == Written(b, path, j) { WrittenBoth(a, b, base, path, j); }
  }

  lemma {:induction false} OverlaidNever(a: seq<Bytes>, b: seq<Bytes>, base: Label)
    requires Overlaid(None, a, base)
    ensures Overlaid(None, a + b, base)
  {
    var i :| 0 <= i < |a| && |a[i]| > 32;
    assert (a + b)[i] == a[i];
  }

  /** The label_val strings of NodeLabels, in order. */
  function LabelVals(ls: seq<Chunk>): seq<Bytes> {
    if ls == [] then []
    else (if Walk(ls[0].body).Some? then Bodies(Of(Walk(ls[0].body).value, 1)) else []) + LabelVals(ls[1..])
  }

  ghost predicate AllWalk(ls: seq<Chunk>) {
    forall i | 0 <= i < |ls| :: Walk(ls[i].body).Some?
  }

  lemma {:induction false} AllWalkFirst(ls: seq<Chunk>)
    requires ls != []
    ensures AllWalk(ls) <==> Walk(ls[0].body).Some? && AllWalk(ls[1..])
  {
    assert forall i | 0 <= i < |ls| - 1 :: ls[i + 1] == ls[1..][i];
  }

  /** The path that NodeLabels leave, when they are all framed and their strings fit. */
  ghost predicate PathOf(path: Option<Label>, ls: seq<Chunk>, base: Label) {
    if AllWalk(ls) then Overlaid(path, LabelVals(ls), base) else path == None
  }

  ghost predicate AllValues(vs: seq<Chunk>) {
    forall i | 0 <= i < |vs| :: |vs[i].body| == 32
  }

  function Final(vs: seq<Chunk>, v: Digest): Bytes {
    if vs == [] then v else vs[|vs| - 1].body
  }

  /** The path, if there is one, and the value, if the values are of the right length. */
  ghost predicate ParsedTo(q: Option<Parsed>, cs: seq<Chunk>, p: Parsed, path: Option<Label>) {
    var ls, vs := Of(cs, 1), Of(cs, 2);
    && PathOf(path, ls, p.path)
    && (q.Some? <==> path.Some? && AllValues(vs))
    && (q.Some? ==>
          && q.value.path == path.value && q.value.value == Final(vs, p.value)
          && q.value.sawLabel == (p.sawLabel || ls != []) && q.value.sawValue == (p.sawValue || vs != []))
  }

  /** One NodeLabel, and then the rest. */
  lemma {:induction false} PathFirst(l: Chunk, ls: seq<Chunk>, base: Label, mid: Label, path: Option<Label>)
    requires Walk(l.body).Some? && LabelChunks(Walk(l.body).value, base) == Some(mid) && PathOf(path, ls, mid)
    ensures PathOf(path, [l] + ls, base)
  {
    var all := [l] + ls;
    assert all[0] == l && all[1..] == ls;
    AllWalkFirst(all);
    if AllWalk(ls) {
      LabelExactly(Walk(l.body).value, base);
      OverlaidBoth(mid, path, Bodies(Of(Walk(l.body).value, 1)), LabelVals(ls), base);
    }
  }

  lemma {:induction false} PathNever(l: Chunk, ls: seq<Chunk>, base: Label)
    requires Walk(l.body).Some? ==> LabelChunks(Walk(l.body).value, base) == None
    ensures PathOf(None, [l] + ls, base)
  {
    var all := [l] + ls;
    assert all[0] == l && all[1..] == ls;
    AllWalkFirst(all);
    if Walk(l.body).Some? {
      LabelExactly(Walk(l.body).value, base);
      OverlaidNever(Bodies(Of(Walk(l.body).value, 1)), LabelVals(ls), base);
    }
  }

  lemma {:induction false} LabelParsed(cs: seq<Chunk>, p: Parsed, q: Parsed, r: Option<Parsed>, path: Option<Label>)
    requires cs != [] && cs[0].field == 1 && ParseField(cs[0], p) == Some(q) && ParsedTo(r, cs[1..], q, path)
    ensures ParsedTo(r, cs, p, path)
  {
    OfFirst(cs, 1);
    OfFirst(cs, 2);
    PathFirst(cs[0], Of(cs[1..], 1), p.path, q.path, path);
    assert Of(cs, 1) == [cs[0]] + Of(cs[1..], 1);
  }

  lemma {:induction false} ValueParsed(cs: seq<Chunk>, p: Parsed, q: Parsed, r: Option<Parsed>, path: Option<Label>)
    requires cs != [] && cs[0].field == 2 && ParseField(cs[0], p) == Some(q) && ParsedTo(r, cs[1..], q, path)
    ensures ParsedTo(r, cs, p, path)
  {
    OfFirst(cs, 1);
    OfFirst(cs, 2);
    var vs, all := Of(cs[1..], 2), Of(cs, 2);
    assert all == [cs[0]] + vs;
    assert forall i | 0 <= i < |vs| :: all[i + 1] == vs[i];
  }

  lemma {:induction false} PathExists(ls: seq<Chunk>, base: Label) returns (path: Option<Label>)
    ensures PathOf(path, ls, base)
  {
    path := None;
    if AllWalk(ls) {
      if forall i | 0 <= i < |LabelVals(ls)| :: |LabelVals(ls)[i]| <= 32 {
        path := Some(seq(32, j requires 0 <= j < 32 => Written(LabelVals(ls), base, j)));
      }
    }
  }

  /** What an element's fields leave, one after another. */
  lemma {:induction false} FieldsExactly(cs: seq<Chunk>, p: Parsed) returns (path: Option<Label>)
    ensures ParsedTo(ElementChunks(cs, p), cs, p, path)
    decreases |cs|
  {
    if cs == [] {
      path := Some(p.path);
    } else {
      var q := ParseField(cs[0], p);
      OfFirst(cs, 1);
      OfFirst(cs, 2);
      if q.Some? {
        path := FieldsExactly(cs[1..], q.value);
        if cs[0].field == 1 { LabelParsed(cs, p, q.value, ElementChunks(cs, p), path); }
        if cs[0].field == 2 { ValueParsed(cs, p, q.value, ElementChunks(cs, p), path); }
      } else if cs[0].field == 1 {
        path := None;
        PathNever(cs[0], Of(cs[1..], 1), p.path);
        assert Of(cs, 1) == [cs[0]] + Of(cs[1..], 1);
      } else {
        path := PathExists(Of(cs, 1), p.path);
        assert Of(cs, 2)[0] == cs[0];
      }
    }
  }

  // ----- its length

  /** The numbers in the varint fields 2 of a message, cut to 32 bits, in order. */
  function LensFrom(data: Bytes, pos: nat): seq<nat>
    requires pos <= |data|
    decreases |data| - pos
  {
    var f := FrameAt(data, pos);
    if pos == |data| || !f.Framed? then [] else LenIn(data, f.r) + LensFrom(data, f.r.end)
  }

  function LenIn(data: Bytes, r: Rec): seq<nat>
    requires r.start <= |data|
  {
    var key := Read(data, r.start);
    if r.wire == 0 && r.field == 2 && key.Value? && Read(data, r.start + key.n).Value? then
      [Read(data, r.start + key.n).v % 0x1_0000_0000]
    else []
  }

  function Last(ns: seq<nat>, n: nat): nat {
    if ns == [] then n else ns[|ns| - 1]
  }

  lemma {:induction false} LastOfBoth(a: seq<nat>, b: seq<nat>, n: nat)
    ensures Last(a + b, n) == Last(b, Last(a, n))
  {
    if b == [] { assert a + b == a; }
  }

  lemma {:induction false} LensExactly(data: Bytes, pos: nat, out: nat)
    requires pos <= |data| && LabelLenFrom(data, pos, out).Some?
    ensures LabelLenFrom(data, pos, out) == Some(Last(LensFrom(data, pos), out))
    decreases |data| - pos
  {
    if pos < |data| {
      LabelLenStep(data, pos, out);
      var r := FrameAt(data, pos).r;
      LensExactly(data, r.end, LenAfter(data, r, out));
      LastOfBoth(LenIn(data, r), LensFrom(data, r.end), out);
    }
  }

  function LabelLens(ls: seq<Chunk>): seq<nat> {
    if ls == [] then [] else LensFrom(ls[0].body, 0) + LabelLens(ls[1..])
  }

  lemma {:induction false} LengthsExactly(cs: seq<Chunk>, out: nat)
    ensures LenChunks(cs, out) == if AllWalk(Of(cs, 1)) then Some(Last(LabelLens(Of(cs, 1)), out)) else None
    decreases |cs|
  {
    if cs != [] {
      OfFirst(cs, 1);
      if cs[0].field != 1 {
        LengthsExactly(cs[1..], out);
      } else {
        var ls := Of(cs, 1);
        AllWalkFirst(ls);
        LabelLenAccepts(cs[0].body, 0, out);
        var n := LabelLenFrom(cs[0].body, 0, out);
        if n.Some? {
          LensExactly(cs[0].body, 0, out);
          LengthsExactly(cs[1..], n.value);
          LastOfBoth(LensFrom(cs[0].body, 0), LabelLens(ls[1..]), out);
        }
      }
    }
  }

  /** The body is that of the element: framed, with at least one NodeLabel and one value, each NodeLabel
      framed, each label_val at most 32 bytes and each value 32. The value is the last; a byte of the
      path is that of the last label_val to reach it, or 0; the length is the last given, or 0, and at
      most 256. */
  ghost predicate IsElement(body: Bytes, e: Element) {
    && Walk(body).Some?
    && var ls, vs := Of(Walk(body).value, 1), Of(Walk(body).value, 2);
       && ls != [] && vs != [] && AllWalk(ls) && AllValues(vs)
       && Overlaid(Some(e.path), LabelVals(ls), Repeat(0, 32))
       && e.value == vs[|vs| - 1].body && e.len == Last(LabelLens(ls), 0)
  }

  lemma {:induction false} OverlaidOnce(a: Label, b: Label, lvs: seq<Bytes>, base: Label)
    requires Overlaid(Some(a), lvs, base) && Overlaid(Some(b), lvs, base)
    ensures a == b
  {
    assert forall j | 0 <= j < 32 :: a[j] == Written(lvs, base, j) == b[j];
  }

  /** Decoding gives an element exactly when the body is that of it. */
  lemma {:induction false} ElementExactly(body: Bytes, e: Element)
    ensures DecodeElement(body) == Some(e) <==> IsElement(body, e)
  {
    if Walk(body).Some? {
      var cs, p := Walk(body).value, Parsed(Repeat(0, 32), Repeat(0, 32), false, false);
      var path := FieldsExactly(cs, p);
      LengthsExactly(cs, 0);
      if IsElement(body, e) && path.Some? {
        OverlaidOnce(e.path, path.value, LabelVals(Of(cs, 1)), Repeat(0, 32));
      }
    }
  }
}
