/**
 * The work generator's two cursors over one origin's history (cmd/kt-witness/workgen.go:245-368).
 * The store is the set of epochs it has recorded as verified.
 */
module Cursors {
  import opened Basics

  // ----- the store

  /** The unverified epochs in [lo, hi), in order. */
  function Unverified(v: set<int>, lo: int, hi: int): seq<int>
    decreases hi - lo
  {
    if lo >= hi then []
    else if lo in v then Unverified(v, lo + 1, hi)
    else [lo] + Unverified(v, lo + 1, hi)
  }

  /** FirstUnverified over [from, last]: the lowest of them. */
  function FirstUnverified(v: set<int>, from: int, last: int): (r: Option<int>)
    ensures var u := Unverified(v, from, last + 1); r == if u == [] then None else Some(u[0])
    decreases last - from
  {
    if from > last then None else if from !in v then Some(from) else FirstUnverified(v, from + 1, last)
  }

  lemma {:induction false} UnverifiedIs(v: set<int>, lo: int, hi: int, e: int)
    ensures e in Unverified(v, lo, hi) <==> lo <= e < hi && e !in v
    decreases hi - lo
  {
    if lo < hi { UnverifiedIs(v, lo + 1, hi, e); }
  }

  /** Past the first of them, the rest are those after it. */
  lemma {:induction false} UnverifiedAfter(v: set<int>, lo: int, hi: int)
    requires Unverified(v, lo, hi) != []
    ensures var e := Unverified(v, lo, hi)[0]; lo <= e < hi && Unverified(v, lo, hi)[1..] == Unverified(v, e + 1, hi)
    decreases hi - lo
  {
    if lo in v { UnverifiedAfter(v, lo + 1, hi); }
  }

  // ----- the backward sweep

  /** How far the sweep has descended, and how far into the window below it has got. */
  datatype Pos = Pos(back: int, at: int)

  function Floor(from: int, stride: nat, p: Pos): int {
    if p.back - stride < from then from else p.back - stride
  }

  function Start(from: int, stride: nat, p: Pos): int {
    var lo := Floor(from, stride, p);
    if p.at < lo || p.at >= p.back then lo else p.at
  }

  /** What the present descent has yet to offer: window by window downward, upward in each. */
  function Rest(v: set<int>, from: int, stride: nat, p: Pos): seq<int>
    requires 0 < stride
    decreases p.back - from
  {
    if p.back <= from then []
    else Unverified(v, Start(from, stride, p), p.back) + Rest(v, from, stride, Pos(Floor(from, stride, p), 0))
  }

  /** The epochs the present descent has yet to reach. */
  predicate Ahead(from: int, stride: nat, p: Pos, e: int) {
    from <= e < p.back && (e < Floor(from, stride, p) || Start(from, stride, p) <= e)
  }

  lemma {:induction false} RestIsAhead(v: set<int>, from: int, stride: nat, p: Pos, e: int)
    requires 0 <= from && 0 < stride
    ensures e in Rest(v, from, stride, p) <==> Ahead(from, stride, p, e) && e !in v
    decreases p.back - from
  {
    if p.back > from {
      UnverifiedIs(v, Start(from, stride, p), p.back, e);
      RestIsAhead(v, from, stride, Pos(Floor(from, stride, p), 0), e);
    }
  }

  // ----- what a descent is

  /** Which window below the sweep's position the epoch is in: the first is 0. */
  function WindowOver(back: int, stride: nat, e: int): nat
    requires 0 < stride
    decreases back - e
  {
    if back - stride <= e then 0 else 1 + WindowOver(back - stride, stride, e)
  }

  /** Windows downward, and upward in each. */
  predicate Descends(s: seq<int>, back: int, stride: nat)
    requires 0 < stride
  {
    forall i, j | 0 <= i < j < |s| ::
      var a, b := WindowOver(back, stride, s[i]), WindowOver(back, stride, s[j]);
      a < b || (a == b && s[i] < s[j])
  }

  predicate Rises(s: seq<int>, lo: int, hi: int) {
    (forall i | 0 <= i < |s| :: lo <= s[i] < hi) && forall i, j | 0 <= i < j < |s| :: s[i] < s[j]
  }

  lemma {:induction false} RisesAfter(e: int, s: seq<int>, hi: int)
    requires Rises(s, e + 1, hi) && e < hi
    ensures Rises(s, e, hi) && Rises([e] + s, e, hi)
  {
  }

  lemma {:induction false} UnverifiedRises(v: set<int>, lo: int, hi: int)
    ensures Rises(Unverified(v, lo, hi), lo, hi)
    decreases hi - lo
  {
    if lo < hi {
      UnverifiedRises(v, lo + 1, hi);
      RisesAfter(lo, Unverified(v, lo + 1, hi), hi);
    }
  }

  lemma {:induction false} WindowDescends(u: seq<int>, r: seq<int>, back: int, stride: nat)
    requires 0 < stride && Rises(u, back - stride, back)
    requires Descends(r, back - stride, stride) && forall i | 0 <= i < |r| :: r[i] < back - stride
    ensures Descends(u + r, back, stride)
  {
  }

  /** The epoch is in history below the position, and in the first window not before the place the
      sweep has got to there. */
  predicate Below(from: int, stride: nat, p: Pos, e: int) {
    from <= e < p.back && (p.back - stride <= e && p.at < p.back ==> p.at <= e)
  }

  lemma {:induction false} RestDescends(v: set<int>, from: int, stride: nat, p: Pos)
    requires 0 <= from && 0 < stride
    ensures Descends(Rest(v, from, stride, p), p.back, stride)
    decreases p.back - from
  {
    if p.back > from {
      var lo, q := Start(from, stride, p), Pos(Floor(from, stride, p), 0);
      var u, r := Unverified(v, lo, p.back), Rest(v, from, stride, q);
      UnverifiedRises(v, lo, p.back);
      assert Rises(u, p.back - stride, p.back);
      RestDescends(v, from, stride, q);
      forall i | 0 <= i < |r| ensures r[i] < q.back { RestIsAhead(v, from, stride, q, r[i]); }
      if q.back == p.back - stride {
        WindowDescends(u, r, p.back, stride);
      } else {
        WindowDescends(u, [], p.back, stride);
        assert r == [] && u + [] == u;
      }
    }
  }

  /** A descent offers exactly the unverified epochs of the history below it, a window of stride epochs
      after another, downward, and upward in each. */
  lemma {:induction false} DescentIsByWindows(v: set<int>, from: int, stride: nat, p: Pos)
    requires 0 <= from && 0 < stride
    ensures forall e :: e in Rest(v, from, stride, p) <==> Below(from, stride, p, e) && e !in v
    ensures Descends(Rest(v, from, stride, p), p.back, stride)
  {
    forall e ensures e in Rest(v, from, stride, p) <==> Below(from, stride, p, e) && e !in v {
      RestIsAhead(v, from, stride, p, e);
    }
    RestDescends(v, from, stride, p);
  }

  // ----- one turn of backward's outer loop

  datatype Sweep = Done(p: Pos, out: seq<int>) | More(p: Pos, out: seq<int>)

  /** At the bottom of history the next descent begins at the forward cursor. */
  function Wrapped(from: int, fwd: int, p: Pos): Pos {
    if p.back <= from then Pos(fwd, 0) else p
  }

  /** How many of u epochs a window offers to a budget of b, when the store fails its query number
      cut, if it does. */
  function Taking(u: nat, b: nat, cut: Option<nat>): (m: nat)
    ensures m <= u && m <= b
  {
    if cut.Some? then Min(Min(b, u), cut.value) else Min(b, u)
  }

  /** With the budget spent inside the window the cursor stays; else it goes down to the next. */
  function Leave(n: int, lo: int, back: int, at: int, out: seq<int>): Sweep {
    if |out| == n && at < back then Done(Pos(back, at), out)
    else if |out| < n then More(Pos(lo, 0), out)
    else Done(Pos(lo, 0), out)
  }

  /** Up to n of the window's epochs are taken. */
  function WindowOf(v: set<int>, from: int, stride: nat, n: int, w: Pos, out: seq<int>, cut: Option<nat>): Sweep
    requires 0 < stride && |out| < n
  {
    var lo := Floor(from, stride, w);
    var u := Unverified(v, Start(from, stride, w), w.back);
    var m := Taking(|u|, n - |out|, cut);
    var at := if m == 0 then Start(from, stride, w) else u[m - 1] + 1;
    Leave(n, lo, w.back, at, out + u[..m])
  }

  function TurnOf(v: set<int>, from: int, fwd: int, stride: nat, n: int, p: Pos, out: seq<int>,
          cut: Option<nat>): Sweep
    requires 0 < stride && |out| < n
  {
    var w := Wrapped(from, fwd, p);
    if w.back <= from then Done(w, out) else WindowOf(v, from, stride, n, w, out, cut)
  }

  /** A turn takes epochs off the front of the descent, and no others. */
  lemma {:induction false} TurnTakes(v: set<int>, from: int, fwd: int, stride: nat, n: int, p: Pos, out: seq<int>)
    requires 0 <= from && 0 < stride && |out| < n
    ensures var w, t := Wrapped(from, fwd, p), TurnOf(v, from, fwd, stride, n, p, out, None);
            && t.out + Rest(v, from, stride, t.p) == out + Rest(v, from, stride, w)
            && |t.out| <= n && (t.More? ==> |t.out| < n)
            && (t.Done? ==> |t.out| == n || (w.back <= from && t.out == out))
  {
    var w := Wrapped(from, fwd, p);
    if w.back > from {
      var u := Unverified(v, Start(from, stride, w), w.back);
      var m := Taking(|u|, n - |out|, None);
      var t := TurnOf(v, from, fwd, stride, n, p, out, None);
      if t.p == Pos(Floor(from, stride, w), 0) {
        if m > 0 { SplitAfter(v, Start(from, stride, w), w.back, m); }
        WindowTaken(v, from, stride, w, out, m);
      } else {
        WindowLeft(v, from, stride, w, out, m);
      }
    }
  }

  /** These are unverified epochs of the first window below w, rising; and the window's others are after
      them all, when the sweep stays in it, or there are none, when it goes down. */
  predicate OffersWindow(v: set<int>, from: int, stride: nat, w: Pos, es: seq<int>, q: Pos) {
    && (forall i | 0 <= i < |es| :: InWindow(from, stride, w, es[i]) && es[i] !in v)
    && (forall i, j | 0 <= i < j < |es| :: es[i] < es[j])
    && (q.back == w.back ==> es != [] && q.at == es[|es| - 1] + 1 < w.back)
    && (forall e | Max(from, w.back - stride) <= e < w.back && InWindow(from, stride, w, e) && e !in v ::
          e in es || (q.back == w.back && q.at <= e))
  }

  predicate InWindow(from: int, stride: nat, w: Pos, e: int) {
    from <= e && w.back - stride <= e < w.back && (w.at < w.back ==> w.at <= e)
  }

  lemma {:induction false} WindowHas(v: set<int>, from: int, stride: nat, w: Pos, e: int)
    requires 0 <= from < w.back && 0 < stride
    ensures e in Unverified(v, Start(from, stride, w), w.back) <==> InWindow(from, stride, w, e) && e !in v
  {
    UnverifiedIs(v, Start(from, stride, w), w.back, e);
  }

  /** All of them, and the window left. */
  lemma {:induction false} WholeOffered(v: set<int>, from: int, stride: nat, w: Pos)
    requires 0 <= from < w.back && 0 < stride
    ensures OffersWindow(v, from, stride, w, Unverified(v, Start(from, stride, w), w.back),
                         Pos(Max(from, w.back - stride), 0))
  {
    var u := Unverified(v, Start(from, stride, w), w.back);
    UnverifiedRises(v, Start(from, stride, w), w.back);
    forall e ensures e in u <==> InWindow(from, stride, w, e) && e !in v { WindowHas(v, from, stride, w, e); }
    assert forall i | 0 <= i < |u| :: u[i] in u;
  }

  /** The first m, and the sweep after the last of those. */
  lemma {:induction false} SomeOffered(v: set<int>, from: int, stride: nat, w: Pos, m: nat)
    requires 0 <= from < w.back && 0 < stride && 0 < m <= |Unverified(v, Start(from, stride, w), w.back)|
    requires Unverified(v, Start(from, stride, w), w.back)[m - 1] + 1 < w.back
    ensures var u := Unverified(v, Start(from, stride, w), w.back);
            OffersWindow(v, from, stride, w, u[..m], Pos(w.back, u[m - 1] + 1))
  {
    var u := Unverified(v, Start(from, stride, w), w.back);
    UnverifiedRises(v, Start(from, stride, w), w.back);
    forall e ensures e in u <==> InWindow(from, stride, w, e) && e !in v { WindowHas(v, from, stride, w, e); }
    assert forall i | 0 <= i < |u| :: u[i] in u;
    PrefixOrAfter(u, m);
  }

  /** A window gone through with the budget of n, out having been offered before. */
  predicate Goes(v: set<int>, from: int, stride: nat, n: int, w: Pos, out: seq<int>, t: Sweep) {
    && Prefix(out, t.out) && |t.out| <= n
    && OffersWindow(v, from, stride, w, t.out[|out|..], t.p)
    && (t.p.back == w.back ==> t.Done? && |t.out| == n)
    && (t.p.back != w.back ==> t.p == Pos(Max(from, w.back - stride), 0) && (t.Done? <==> |t.out| == n))
  }

  lemma {:induction false} GoesWith(v: set<int>, from: int, stride: nat, n: int, w: Pos, out: seq<int>, es: seq<int>,
          t: Sweep)
    requires t.out == out + es && |t.out| <= n && OffersWindow(v, from, stride, w, es, t.p)
    requires t.p.back == w.back ==> t.Done? && |t.out| == n
    requires t.p.back != w.back ==> t.p == Pos(Max(from, w.back - stride), 0) && (t.Done? <==> |t.out| == n)
    ensures Goes(v, from, stride, n, w, out, t)
  {
    assert t.out[|out|..] == es;
  }

  lemma {:induction false} WindowGoes(v: set<int>, from: int, stride: nat, n: int, w: Pos, out: seq<int>)
    requires 0 <= from < w.back && 0 < stride && |out| < n
    ensures Goes(v, from, stride, n, w, out, WindowOf(v, from, stride, n, w, out, None))
  {
    var t, lo := WindowOf(v, from, stride, n, w, out, None), Start(from, stride, w);
    var u := Unverified(v, lo, w.back);
    var m := Taking(|u|, n - |out|, None);
    if m > 0 && u[m - 1] + 1 < w.back && |out| + m == n {
      SomeOffered(v, from, stride, w, m);
      GoesWith(v, from, stride, n, w, out, u[..m], t);
    } else {
      if 0 < m < |u| { LastIsLast(v, lo, w.back, m); }
      assert u[..m] == u;
      WholeOffered(v, from, stride, w);
      GoesWith(v, from, stride, n, w, out, u, t);
    }
  }

  /** What a turn offers, and where it leaves the sweep. It begins at back, or at the forward cursor if
      back is at the bottom; it offers the lowest unverified epochs of the stride below that, from the
      place it had got to, up to the budget; and stays in the window, after the last it offered, only
      when the budget is spent there, else goes down by the stride, having offered all of them. */
  lemma {:induction false} TurnOffersWindow(v: set<int>, from: int, fwd: int, stride: nat, n: int, p: Pos,
          out: seq<int>)
    requires 0 <= from && 0 < stride && |out| < n && (p.back > from || fwd > from)
    ensures Goes(v, from, stride, n, if p.back > from then p else Pos(fwd, 0), out,
                 TurnOf(v, from, fwd, stride, n, p, out, None))
  {
    WindowGoes(v, from, stride, n, if p.back > from then p else Pos(fwd, 0), out);
  }

  lemma {:induction false} WindowTaken(v: set<int>, from: int, stride: nat, w: Pos, out: seq<int>, m: nat)
    requires 0 < stride && from < w.back
    requires var u := Unverified(v, Start(from, stride, w), w.back);
             m <= |u| && (m < |u| ==> m > 0 && u[m - 1] + 1 >= w.back)
    ensures var u := Unverified(v, Start(from, stride, w), w.back);
            (out + u[..m]) + Rest(v, from, stride, Pos(Floor(from, stride, w), 0)) == out + Rest(v, from, stride, w)
  {
    var u := Unverified(v, Start(from, stride, w), w.back);
    var below := Rest(v, from, stride, Pos(Floor(from, stride, w), 0));
    if m < |u| { LastIsLast(v, Start(from, stride, w), w.back, m); }
    assert u[..m] == u;
    assert (out + u) + below == out + (u + below);
  }

  lemma {:induction false} WindowLeft(v: set<int>, from: int, stride: nat, w: Pos, out: seq<int>, m: nat)
    requires 0 < stride && from < w.back && 0 < m <= |Unverified(v, Start(from, stride, w), w.back)|
    requires Unverified(v, Start(from, stride, w), w.back)[m - 1] + 1 < w.back
    ensures var u := Unverified(v, Start(from, stride, w), w.back);
            (out + u[..m]) + Rest(v, from, stride, Pos(w.back, u[m - 1] + 1)) == out + Rest(v, from, stride, w)
  {
    var u := Unverified(v, Start(from, stride, w), w.back);
    var below := Rest(v, from, stride, Pos(Floor(from, stride, w), 0));
    SplitAfter(v, Start(from, stride, w), w.back, m);
    var p := Pos(w.back, u[m - 1] + 1);
    assert Floor(from, stride, p) == Floor(from, stride, w) && Start(from, stride, p) == p.at;
    assert Rest(v, from, stride, p) == u[m..] + below;
    assert (out + u[..m]) + (u[m..] + below) == out + ((u[..m] + u[m..]) + below);
    assert u[..m] + u[m..] == u;
  }

  /** After the first m of them, the rest are those past the m-th. */
  lemma {:induction false} SplitAfter(v: set<int>, lo: int, hi: int, m: nat)
    requires 0 < m <= |Unverified(v, lo, hi)|
    ensures var u := Unverified(v, lo, hi); lo <= u[m - 1] < hi && u[m..] == Unverified(v, u[m - 1] + 1, hi)
    decreases m
  {
    UnverifiedAfter(v, lo, hi);
    var u := Unverified(v, lo, hi);
    if m > 1 {
      SplitAfter(v, u[0] + 1, hi, m - 1);
      assert u[1..][m - 1..] == u[m..];
    }
  }

  lemma {:induction false} LastIsLast(v: set<int>, lo: int, hi: int, m: nat)
    requires 0 < m <= |Unverified(v, lo, hi)| && Unverified(v, lo, hi)[m - 1] + 1 >= hi
    ensures m == |Unverified(v, lo, hi)|
  {
    SplitAfter(v, lo, hi, m);
  }

  // ----- when backward returns

  /** The rest of the descent fills the budget, or there is history below the forward cursor with
      something unverified in it, or there is none at all. */
  predicate Returns(v: set<int>, from: int, fwd: int, stride: nat, n: int, p: Pos, out: seq<int>)
    requires 0 < stride
  {
    n <= |out| || fwd <= from || n <= |out| + |Rest(v, from, stride, p)| || Unverified(v, from, fwd) != []
  }

  /** How many epochs backward has still to descend before it must offer one. */
  function Rank(v: set<int>, from: int, fwd: int, stride: nat, p: Pos): nat
    requires 0 < stride
  {
    (if p.back <= from then 0 else p.back - from)
    + if Rest(v, from, stride, p) != [] then 0 else if fwd <= from then 1 else fwd - from + 1
  }

  lemma {:induction false} FullDescent(v: set<int>, from: int, fwd: int, stride: nat)
    requires 0 <= from && 0 < stride && Unverified(v, from, fwd) != []
    ensures Rest(v, from, stride, Pos(fwd, 0)) != []
  {
    UnverifiedAfter(v, from, fwd);
    var e := Unverified(v, from, fwd)[0];
    UnverifiedIs(v, from, fwd, e);
    AllAhead(from, fwd, stride, e);
    RestIsAhead(v, from, stride, Pos(fwd, 0), e);
  }

  /** A descent that begins at the forward cursor has all the history below it ahead. */
  lemma {:induction false} AllAhead(from: int, fwd: int, stride: nat, e: int)
    requires 0 <= from <= e < fwd && 0 < stride
    ensures Ahead(from, stride, Pos(fwd, 0), e)
  {
  }

  /** Each turn that does not end the call keeps Returns, and offers an epoch or descends. */
  lemma {:induction false} TurnDescends(v: set<int>, from: int, fwd: int, stride: nat, n: int, p: Pos, out: seq<int>)
    requires 0 <= from && 0 < stride && |out| < n && Returns(v, from, fwd, stride, n, p, out)
    ensures var t := TurnOf(v, from, fwd, stride, n, p, out, None);
            && (t.More? ==> Returns(v, from, fwd, stride, n, t.p, t.out))
            && (t.More? ==> |t.out| > |out| || Rank(v, from, fwd, stride, t.p) < Rank(v, from, fwd, stride, p))
  {
    var t := TurnOf(v, from, fwd, stride, n, p, out, None);
    TurnTakes(v, from, fwd, stride, n, p, out);
    if t.More? {
      var w := Wrapped(from, fwd, p);
      TurnLength(t.out, Rest(v, from, stride, t.p), out, Rest(v, from, stride, w));
      if p.back <= from {
        assert Rest(v, from, stride, p) == [];
        FullDescent(v, from, fwd, stride);
      }
    }
  }

  lemma {:induction false} TurnLength(a: seq<int>, x: seq<int>, b: seq<int>, y: seq<int>)
    requires a + x == b + y
    ensures |a| + |x| == |b| + |y| && (|a| == |b| ==> a == b && x == y)
  {
    assert |a + x| == |b + y|;
    if |a| == |b| {
      assert a == (a + x)[..|a|] == b && x == (a + x)[|a|..] == y;
    }
  }

  /** k turns of the loop, each of which finds the store as cut says. */
  function Turns(v: set<int>, from: int, fwd: int, stride: nat, n: int, p: Pos, out: seq<int>, cut: Option<nat>,
          k: nat): Sweep
    requires 0 < stride && |out| < n
    decreases k
  {
    if k == 0 then More(p, out)
    else
      var t := TurnOf(v, from, fwd, stride, n, p, out, cut);
      if t.Done? then t else Turns(v, from, fwd, stride, n, t.p, t.out, cut, k - 1)
  }

  lemma {:induction false} FailingSpins(v: set<int>, from: int, fwd: int, stride: nat, n: int, p: Pos,
          out: seq<int>, k: nat)
    requires 0 < stride && |out| < n && from < fwd
    ensures var t := Turns(v, from, fwd, stride, n, p, out, Some(0), k); t.More? && t.out == out
    decreases k
  {
    if k > 0 {
      var t, w := TurnOf(v, from, fwd, stride, n, p, out, Some(0)), Wrapped(from, fwd, p);
      assert out + Unverified(v, Start(from, stride, w), w.back)[..0] == out;
      FailingSpins(v, from, fwd, stride, n, t.p, t.out, k - 1);
    }
  }

  lemma {:induction false} FailingStops(v: set<int>, from: int, fwd: int, stride: nat, n: int, p: Pos, out: seq<int>)
          returns (k: nat)
    requires 0 < stride && |out| < n && fwd <= from
    ensures Turns(v, from, fwd, stride, n, p, out, Some(0), k).Done?
    decreases p.back - from
  {
    if p.back <= from {
      k := 1;
    } else {
      var t := TurnOf(v, from, fwd, stride, n, p, out, Some(0));
      var j := FailingStops(v, from, fwd, stride, n, t.p, t.out);
      k := j + 1;
    }
  }

  /** While the store fails every query, backward returns exactly when there is no history below the
      forward cursor: a failing query is taken for an exhausted window, and the sweep goes round. */
  lemma {:induction false} FailingReturnsExactly(v: set<int>, from: int, fwd: int, stride: nat, n: int, p: Pos)
    requires 0 < stride && 0 < n
    ensures (exists k: nat :: Turns(v, from, fwd, stride, n, p, [], Some(0), k).Done?) <==> fwd <= from
  {
    if fwd <= from {
      var k := FailingStops(v, from, fwd, stride, n, p, []);
    } else {
      forall k: nat ensures Turns(v, from, fwd, stride, n, p, [], Some(0), k).More? {
        FailingSpins(v, from, fwd, stride, n, p, [], k);
      }
    }
  }

  /** The wrap has no other exit: with nothing unverified below the forward cursor, and the rest of
      the descent short of the budget, backward never returns. */
  lemma {:induction false} NeverReturns(v: set<int>, from: int, fwd: int, stride: nat, n: int, p: Pos, out: seq<int>,
          k: nat)
    requires 0 <= from && 0 < stride && |out| < n && !Returns(v, from, fwd, stride, n, p, out)
    ensures Turns(v, from, fwd, stride, n, p, out, None, k).More?
    decreases k
  {
    if k > 0 {
      var t, w := TurnOf(v, from, fwd, stride, n, p, out, None), Wrapped(from, fwd, p);
      TurnTakes(v, from, fwd, stride, n, p, out);
      TurnLength(t.out, Rest(v, from, stride, t.p), out, Rest(v, from, stride, w));
      if p.back <= from { NothingBelow(v, from, fwd, stride); }
      NeverReturns(v, from, fwd, stride, n, t.p, t.out, k - 1);
    }
  }

  lemma {:induction false} NothingBelow(v: set<int>, from: int, fwd: int, stride: nat)
    requires 0 <= from && 0 < stride && Unverified(v, from, fwd) == []
    ensures Rest(v, from, stride, Pos(fwd, 0)) == []
  {
    var r := Rest(v, from, stride, Pos(fwd, 0));
    if r != [] {
      RestIsAhead(v, from, stride, Pos(fwd, 0), r[0]);
      UnverifiedIs(v, from, fwd, r[0]);
    }
  }

  lemma {:induction false} Stops(v: set<int>, from: int, fwd: int, stride: nat, n: int, p: Pos, out: seq<int>)
          returns (k: nat)
    requires 0 <= from && 0 < stride && |out| < n && Returns(v, from, fwd, stride, n, p, out)
    ensures Turns(v, from, fwd, stride, n, p, out, None, k).Done?
    decreases n - |out|, Rank(v, from, fwd, stride, p)
  {
    TurnDescends(v, from, fwd, stride, n, p, out);
    TurnTakes(v, from, fwd, stride, n, p, out);
    var t := TurnOf(v, from, fwd, stride, n, p, out, None);
    if t.Done? {
      k := 1;
    } else {
      var j := Stops(v, from, fwd, stride, n, t.p, t.out);
      k := j + 1;
    }
  }

  /** backward returns exactly when Returns holds at its call. */
  lemma {:induction false} ReturnsExactly(v: set<int>, from: int, fwd: int, stride: nat, n: int, p: Pos)
    requires 0 <= from && 0 < stride && 0 < n
    ensures (exists k: nat :: Turns(v, from, fwd, stride, n, p, [], None, k).Done?)
            <==> Returns(v, from, fwd, stride, n, p, [])
  {
    if Returns(v, from, fwd, stride, n, p, []) {
      var k := Stops(v, from, fwd, stride, n, p, []);
    } else {
      forall k: nat ensures Turns(v, from, fwd, stride, n, p, [], None, k).More? {
        NeverReturns(v, from, fwd, stride, n, p, [], k);
      }
    }
  }

  // ----- the forward pass

  /** Where the pass is after offering the first m epochs. */
  function After(v: set<int>, fwd: int, last: int, m: nat): int
    requires m <= |Unverified(v, fwd, last + 1)|
  {
    if m == 0 then fwd else Unverified(v, fwd, last + 1)[m - 1] + 1
  }

  /** How many epochs it offers when the store fails its query number errs, if it does. */
  function Offers(v: set<int>, fwd: int, last: int, n: int, errs: Option<nat>): (m: nat)
    ensures m <= |Unverified(v, fwd, last + 1)| && (n <= 0 || m <= n)
  {
    var u := |Unverified(v, fwd, last + 1)|;
    var m := if n <= 0 then 0 else Min(n, u);
    if errs.Some? then Min(m, errs.value) else m
  }

  /** Where it leaves the cursor: after the last epoch offered, or at the tip when a query found
      nothing or failed. */
  function ForwardTo(v: set<int>, fwd: int, last: int, n: int, errs: Option<nat>): int {
    var m := Offers(v, fwd, last, n, errs);
    if m < n && After(v, fwd, last, m) <= last then last else After(v, fwd, last, m)
  }

  lemma {:induction false} AfterRises(v: set<int>, fwd: int, last: int, m: nat)
    requires m <= |Unverified(v, fwd, last + 1)|
    ensures var u := Unverified(v, fwd, last + 1);
            && fwd <= After(v, fwd, last, m) && (m > 0 ==> After(v, fwd, last, m) <= last + 1)
            && u[m..] == Unverified(v, After(v, fwd, last, m), last + 1)
  {
    var u := Unverified(v, fwd, last + 1);
    if m > 0 { SplitAfter(v, fwd, last + 1, m); } else { assert u[0..] == u; }
  }

  lemma {:induction false} OfferedOrVerified(v: set<int>, fwd: int, last: int, m: nat, e: int)
    requires m <= |Unverified(v, fwd, last + 1)| && fwd <= e < After(v, fwd, last, m) && e <= last
    ensures e in v || e in Unverified(v, fwd, last + 1)[..m]
  {
    var u, at := Unverified(v, fwd, last + 1), After(v, fwd, last, m);
    AfterRises(v, fwd, last, m);
    UnverifiedIs(v, fwd, last + 1, e);
    UnverifiedIs(v, at, last + 1, e);
    assert u == u[..m] + u[m..];
  }

  /** The pass goes by the epoch without offering it. */
  predicate Skips(v: set<int>, fwd: int, last: int, n: int, errs: Option<nat>, e: int) {
    && fwd <= e < ForwardTo(v, fwd, last, n, errs) && e !in v
    && e !in Unverified(v, fwd, last + 1)[..Offers(v, fwd, last, n, errs)]
  }

  /** The store fails with budget left and an unverified epoch below the tip still to come. */
  predicate FailsEarly(v: set<int>, fwd: int, last: int, n: int, errs: Option<nat>) {
    var u, m := Unverified(v, fwd, last + 1), Offers(v, fwd, last, n, errs);
    errs == Some(m) && m < n && m < |u| && u[m] < last
  }

  lemma {:induction false} FailingSkips(v: set<int>, fwd: int, last: int, n: int, errs: Option<nat>)
    requires FailsEarly(v, fwd, last, n, errs)
    ensures Skips(v, fwd, last, n, errs, Unverified(v, fwd, last + 1)[Offers(v, fwd, last, n, errs)])
  {
    var u, m := Unverified(v, fwd, last + 1), Offers(v, fwd, last, n, errs);
    AfterRises(v, fwd, last, m);
    assert u[m] == u[m..][0] && u[m] in u[m..];
    UnverifiedIs(v, After(v, fwd, last, m), last + 1, u[m]);
    AscendsAt(v, fwd, last + 1, m);
  }

  lemma {:induction false} SkippingFails(v: set<int>, fwd: int, last: int, n: int, errs: Option<nat>, e: int)
    requires Skips(v, fwd, last, n, errs, e)
    ensures FailsEarly(v, fwd, last, n, errs)
  {
    var u, m := Unverified(v, fwd, last + 1), Offers(v, fwd, last, n, errs);
    var at := After(v, fwd, last, m);
    AfterRises(v, fwd, last, m);
    if e < at { OfferedOrVerified(v, fwd, last, m, e); }
    UnverifiedLeast(v, at, last + 1, e);
    assert u[m..][0] == u[m];
  }

  /** The cursor only moves up, and passes an epoch neither verified nor offered exactly when the
      store fails early; the epochs so passed are left to the backward sweep. */
  lemma {:induction false} ForwardPasses(v: set<int>, fwd: int, last: int, n: int, errs: Option<nat>)
    ensures ForwardTo(v, fwd, last, n, errs) >= fwd
    ensures (exists e :: Skips(v, fwd, last, n, errs, e)) <==> FailsEarly(v, fwd, last, n, errs)
  {
    AfterRises(v, fwd, last, Offers(v, fwd, last, n, errs));
    if FailsEarly(v, fwd, last, n, errs) { FailingSkips(v, fwd, last, n, errs); }
    if e :| Skips(v, fwd, last, n, errs, e) { SkippingFails(v, fwd, last, n, errs, e); }
  }

  lemma {:induction false} UnverifiedLeast(v: set<int>, lo: int, hi: int, e: int)
    requires lo <= e < hi && e !in v
    ensures Unverified(v, lo, hi) != [] && Unverified(v, lo, hi)[0] <= e
    decreases hi - lo
  {
    if lo in v { UnverifiedLeast(v, lo + 1, hi, e); }
  }

  /** The m-th is not among those before it. */
  lemma {:induction false} AscendsAt(v: set<int>, lo: int, hi: int, m: nat)
    requires m < |Unverified(v, lo, hi)|
    ensures Unverified(v, lo, hi)[m] !in Unverified(v, lo, hi)[..m]
    decreases m
  {
    var u := Unverified(v, lo, hi);
    if i :| 0 <= i < m && u[i] == u[m] {
      SplitAfter(v, lo, hi, i + 1);
      assert u[i + 1..][m - i - 1] == u[m];
      assert u[m] in u[i + 1..];
      UnverifiedIs(v, u[i] + 1, hi, u[m]);
    }
  }

  /** These are the lowest n of the unverified epochs from fwd to last, or all of them. */
  predicate Lowest(v: set<int>, fwd: int, last: int, n: nat, es: seq<int>) {
    && Rises(es, fwd, last + 1) && |es| <= n && (forall i | 0 <= i < |es| :: es[i] !in v)
    && forall e | fwd <= e <= last && e !in v :: e in es || (|es| == n && (n > 0 ==> es[n - 1] < e))
  }

  lemma {:induction false} LowestOf(v: set<int>, fwd: int, last: int, n: nat, m: nat)
    requires m == Min(n, |Unverified(v, fwd, last + 1)|)
    ensures Lowest(v, fwd, last, n, Unverified(v, fwd, last + 1)[..m])
  {
    var u := Unverified(v, fwd, last + 1);
    UnverifiedRises(v, fwd, last + 1);
    PrefixOrAfter(u, m);
    forall i | 0 <= i < m ensures u[..m][i] !in v {
      UnverifiedIs(v, fwd, last + 1, u[i]);
      assert u[i] in u;
    }
    forall e | fwd <= e <= last && e !in v ensures e in u[..m] || (m == n && (n > 0 ==> u[n - 1] < e)) {
      UnverifiedIs(v, fwd, last + 1, e);
      if m < n { assert u[..m] == u; }
    }
  }

  /** In a rising sequence what is not among the first m is above them. */
  lemma {:induction false} PrefixOrAfter(u: seq<int>, m: nat)
    requires m <= |u| && forall i, j | 0 <= i < j < |u| :: u[i] < u[j]
    ensures forall e | e in u :: e in u[..m] || (m > 0 ==> u[m - 1] < e)
  {
    forall e | e in u ensures e in u[..m] || (m > 0 ==> u[m - 1] < e) {
      var i :| 0 <= i < |u| && u[i] == e;
      if i < m { assert u[..m][i] == e; }
    }
  }

  /** What a pass offers when the store does not fail: the lowest unverified epochs from the cursor to
      the tip, up to the budget; and it leaves the cursor after the last of them, or at the tip if that
      is further and budget was left. */
  lemma {:induction false} ForwardFills(v: set<int>, fwd: int, last: int, n: nat)
    ensures var es := Unverified(v, fwd, last + 1)[..Offers(v, fwd, last, n, None)];
            var next := if es == [] then fwd else es[|es| - 1] + 1;
            && Lowest(v, fwd, last, n, es)
            && ForwardTo(v, fwd, last, n, None) == if |es| < n && next <= last then last else next
  {
    LowestOf(v, fwd, last, n, Offers(v, fwd, last, n, None));
  }

  // ----- what a failing query costs the backward sweep

  /** The turn leaves behind an unverified epoch it had ahead, without offering it. */
  predicate Misses(v: set<int>, from: int, fwd: int, stride: nat, n: int, p: Pos, out: seq<int>, cut: Option<nat>,
          e: int)
    requires 0 < stride && |out| < n
  {
    var w, t := Wrapped(from, fwd, p), TurnOf(v, from, fwd, stride, n, p, out, cut);
    Ahead(from, stride, w, e) && e !in v && !Ahead(from, stride, t.p, e) && e !in t.out[|out|..]
  }

  /** A query fails with budget left and an unverified epoch of the window still to come. */
  predicate CutsShort(v: set<int>, from: int, fwd: int, stride: nat, n: int, p: Pos, out: seq<int>, cut: Option<nat>)
    requires 0 < stride && |out| < n
  {
    var w := Wrapped(from, fwd, p);
    w.back > from && cut.Some? && |out| + cut.value < n
    && cut.value < |Unverified(v, Start(from, stride, w), w.back)|
  }

  lemma {:induction false} WholeMissesNone(v: set<int>, from: int, fwd: int, stride: nat, n: int, p: Pos, out: seq<int>,
          cut: Option<nat>, e: int)
    requires 0 <= from && 0 < stride && |out| < n && !CutsShort(v, from, fwd, stride, n, p, out, cut)
    ensures !Misses(v, from, fwd, stride, n, p, out, cut, e)
  {
    var w, t := Wrapped(from, fwd, p), TurnOf(v, from, fwd, stride, n, p, out, cut);
    assert t == TurnOf(v, from, fwd, stride, n, p, out, None);
    TurnTakes(v, from, fwd, stride, n, p, out);
    if Ahead(from, stride, w, e) && e !in v {
      RestIsAhead(v, from, stride, w, e);
      RestIsAhead(v, from, stride, t.p, e);
      FoundInEither(out, Rest(v, from, stride, w), t.out, Rest(v, from, stride, t.p), e);
    }
  }

  lemma {:induction false} FoundInEither(a: seq<int>, x: seq<int>, b: seq<int>, y: seq<int>, e: int)
    requires a + x == b + y && |a| <= |b| && e in x
    ensures e in b[|a|..] || e in y
  {
    var i :| 0 <= i < |x| && x[i] == e;
    assert (a + x)[|a| + i] == e == (b + y)[|a| + i];
    if |a| + i < |b| { assert b[|a|..][i] == e; } else { assert y[|a| + i - |b|] == e; }
  }

  lemma {:induction false} CutMisses(v: set<int>, from: int, fwd: int, stride: nat, n: int, p: Pos, out: seq<int>,
          cut: Option<nat>)
    requires 0 <= from && 0 < stride && |out| < n && CutsShort(v, from, fwd, stride, n, p, out, cut)
    ensures var w := Wrapped(from, fwd, p);
            Misses(v, from, fwd, stride, n, p, out, cut, Unverified(v, Start(from, stride, w), w.back)[cut.value])
  {
    var w := Wrapped(from, fwd, p);
    var lo, c := Start(from, stride, w), cut.value;
    var u := Unverified(v, lo, w.back);
    UnverifiedIs(v, lo, w.back, u[c]);
    AscendsAt(v, lo, w.back, c);
    assert (out + u[..c])[|out|..] == u[..c];
  }

  /** A turn misses an epoch exactly when a query fails early, and only in the window it was at; the
      next descent has every epoch below the forward cursor ahead again. */
  lemma {:induction false} TurnMisses(v: set<int>, from: int, fwd: int, stride: nat, n: int, p: Pos, out: seq<int>,
          cut: Option<nat>)
    requires 0 <= from && 0 < stride && |out| < n
    ensures (exists e :: Misses(v, from, fwd, stride, n, p, out, cut, e))
            <==> CutsShort(v, from, fwd, stride, n, p, out, cut)
    ensures var w := Wrapped(from, fwd, p);
            forall e | Misses(v, from, fwd, stride, n, p, out, cut, e) :: Start(from, stride, w) <= e < w.back
    ensures forall e | from <= e < fwd :: Ahead(from, stride, Pos(fwd, 0), e)
  {
    if CutsShort(v, from, fwd, stride, n, p, out, cut) {
      CutMisses(v, from, fwd, stride, n, p, out, cut);
    } else {
      forall e ensures !Misses(v, from, fwd, stride, n, p, out, cut, e) {
        WholeMissesNone(v, from, fwd, stride, n, p, out, cut, e);
      }
    }
  }

  // ----- the cursors

  datatype History = History(from: int, last: int)

  function Times(x: seq<int>, k: nat): seq<int>
    decreases k
  {
    if k == 0 then [] else x + Times(x, k - 1)
  }

  lemma {:induction false} TimesMore(x: seq<int>, k: nat)
    ensures Times(x, k + 1) == Times(x, k) + x
    decreases k
  {
    if k == 0 {
      assert x + [] == x && [] + x == x;
    } else {
      TimesMore(x, k - 1);
      assert x + (Times(x, k - 1) + x) == (x + Times(x, k - 1)) + x;
    }
  }

  /** A call of backward offered out and left the sweep at q: what it offered and what is left make
      up what was left and so many descents more from the forward cursor. */
  ghost predicate Swept(v: set<int>, from: int, fwd: int, stride: nat, p: Pos, out: seq<int>, q: Pos, laps: nat)
    requires 0 < stride
  {
    && out + Rest(v, from, stride, q) == Rest(v, from, stride, p) + Times(Rest(v, from, stride, Pos(fwd, 0)), laps)
    && (laps > 0 ==> |Rest(v, from, stride, p)| <= |out|)
  }

  lemma {:induction false} SweptOn(v: set<int>, from: int, fwd: int, stride: nat, n: int, p: Pos, out: seq<int>,
          q: Pos, laps: nat) returns (more: nat)
    requires 0 <= from && 0 < stride && |out| < n && Swept(v, from, fwd, stride, p, out, q, laps)
    ensures var t := TurnOf(v, from, fwd, stride, n, q, out, None); Swept(v, from, fwd, stride, p, t.out, t.p, more)
    ensures laps <= more
  {
    var t, w := TurnOf(v, from, fwd, stride, n, q, out, None), Wrapped(from, fwd, q);
    TurnTakes(v, from, fwd, stride, n, q, out);
    var full := Rest(v, from, stride, Pos(fwd, 0));
    if q.back <= from {
      more := laps + 1;
      TimesMore(full, laps);
      assert Rest(v, from, stride, q) == [] && out + [] == out;
      var r := Rest(v, from, stride, p);
      assert (r + Times(full, laps)) + full == r + (Times(full, laps) + full);
      assert |out| == |Rest(v, from, stride, p)| + |Times(full, laps)|;
      assert |t.out| >= |out|;
    } else {
      more := laps;
      assert |t.out| >= |out|;
    }
  }

  lemma {:induction false} NothingSwept(v: set<int>, from: int, fwd: int, stride: nat, p: Pos)
    requires 0 < stride
    ensures Swept(v, from, fwd, stride, p, [], p, 0)
  {
    assert [] + Rest(v, from, stride, p) == Rest(v, from, stride, p) + [];
  }

  /** backward's loop: so far it has swept from p to q, and it will return. */
  ghost predicate Underway(v: set<int>, from: int, fwd: int, stride: nat, n: int, p: Pos, out: seq<int>, q: Pos,
          laps: nat)
    requires 0 < stride
  {
    |out| <= n && Swept(v, from, fwd, stride, p, out, q, laps) && Returns(v, from, fwd, stride, n, q, out)
  }

  ghost predicate SweepsOn(v: set<int>, from: int, fwd: int, stride: nat, n: int, p: Pos, out: seq<int>, q: Pos,
          t: Sweep, more: nat)
    requires 0 < stride
  {
    && Swept(v, from, fwd, stride, p, t.out, t.p, more) && |t.out| <= n
    && (t.More? || n <= |t.out| ==> Underway(v, from, fwd, stride, n, p, t.out, t.p, more))
    && (t.More? ==> |t.out| > |out| || Rank(v, from, fwd, stride, t.p) < Rank(v, from, fwd, stride, q))
    && (t.Done? ==> |t.out| == n || (fwd <= from && Rest(v, from, stride, t.p) == []))
  }

  /** A turn of it gets on, or ends the call with the budget spent or no history below the forward
      cursor. */
  lemma {:induction false} TurnSweeps(v: set<int>, from: int, fwd: int, stride: nat, n: int, p: Pos, out: seq<int>,
          q: Pos, laps: nat) returns (more: nat)
    requires 0 <= from && 0 < stride && |out| < n && Underway(v, from, fwd, stride, n, p, out, q, laps)
    ensures SweepsOn(v, from, fwd, stride, n, p, out, q, TurnOf(v, from, fwd, stride, n, q, out, None), more)
  {
    TurnTakes(v, from, fwd, stride, n, q, out);
    TurnDescends(v, from, fwd, stride, n, q, out);
    more := SweptOn(v, from, fwd, stride, n, p, out, q, laps);
  }

  /** m epochs of the window have been taken, and the rest of it is what is past them. */
  ghost predicate Taken(v: set<int>, start: int, back: int, out0: seq<int>, out: seq<int>, at: int, m: nat) {
    var u := Unverified(v, start, back);
    && m <= |u| && out == out0 + u[..m] && at == (if m == 0 then start else u[m - 1] + 1)
    && u[m..] == Unverified(v, at, back)
  }

  lemma {:induction false} TakenNone(v: set<int>, start: int, back: int, out0: seq<int>)
    ensures Taken(v, start, back, out0, out0, start, 0)
  {
    var u := Unverified(v, start, back);
    assert u[0..] == u && out0 + u[..0] == out0;
  }

  lemma {:induction false} TakeOne(v: set<int>, start: int, back: int, out0: seq<int>, out: seq<int>, at: int, m: nat)
    requires Taken(v, start, back, out0, out, at, m) && Unverified(v, at, back) != []
    ensures var e := Unverified(v, at, back)[0]; Taken(v, start, back, out0, out + [e], e + 1, m + 1)
  {
    var u := Unverified(v, start, back);
    UnverifiedAfter(v, at, back);
    assert u[m..][0] == u[m] && u[m..][1..] == u[m + 1..];
    assert out0 + u[..m + 1] == (out0 + u[..m]) + [u[m]];
  }

  const BACK_STRIDE: nat := 512

  class Cursors {
    var fwd: int
    var back: int
    var ready: bool
    var at: int
    var stride: int

    constructor ()
      ensures fwd == back == at == stride == 0 && !ready
    {
      fwd, back, ready, at, stride := 0, 0, false, 0, 0;
    }

    function StrideOr(): (s: nat)
      reads this
      ensures 0 < s && (stride <= 0 ==> s == 512) && (stride > 0 ==> s == stride)
    {
      if stride > 0 then stride else BACK_STRIDE
    }

    function Sweeping(): Pos
      reads this
    {
      Pos(back, at)
    }

    /** init, from the progress the store gives, if it gives it. */
    method Init(h: History, progress: Option<int>, backProgress: Option<int>)
      modifies this`fwd, this`back, this`ready
      ensures ready
      ensures old(ready) ==> fwd == old(fwd) && back == old(back)
      ensures !old(ready) ==>
                && fwd == (if progress.Some? && progress.value > h.from then progress.value else h.from)
                && back == if backProgress.Some? && backProgress.value > h.from then backProgress.value else fwd
    {
      if ready {
        return;
      }
      ready := true;
      if progress.Some? && progress.value > h.from {
        fwd := progress.value;
      } else {
        fwd := h.from;
      }
      if backProgress.Some? && backProgress.value > h.from {
        back := backProgress.value;
      } else {
        back := fwd;
      }
    }

    method Forward(v: set<int>, h: History, n: int, errs: Option<nat>) returns (out: seq<int>)
      modifies this`fwd
      ensures out == Unverified(v, old(fwd), h.last + 1)[..Offers(v, old(fwd), h.last, n, errs)]
      ensures fwd == ForwardTo(v, old(fwd), h.last, n, errs)
    {
      out := [];
      var pos := fwd;
      ghost var was, u := fwd, Unverified(v, fwd, h.last + 1);
      while |out| < n && pos <= h.last
        invariant |out| <= Offers(v, was, h.last, n, errs)
        invariant out == u[..|out|] && pos == fwd == After(v, was, h.last, |out|)
        decreases n - |out|
      {
        AfterRises(v, was, h.last, |out|);
        var e := if errs == Some(|out|) then None else FirstUnverified(v, pos, h.last);
        if e.None? {
          fwd := h.last;
          break;
        }
        assert e.value == u[|out|..][0] == u[|out|];
        out := out + [e.value];
        pos := e.value + 1;
        fwd := pos;
      }
      AfterRises(v, was, h.last, |out|);
    }

    /** The inner loop: epochs of one window, until the budget or the window is spent or a query
        fails. */
    method Window(v: set<int>, n: int, out0: seq<int>, cut: Option<nat>) returns (out: seq<int>)
      requires |out0| < n && at < back
      modifies this`at
      ensures var u := Unverified(v, old(at), back);
              var m := Taking(|u|, n - |out0|, cut);
              out == out0 + u[..m] && at == if m == 0 then old(at) else u[m - 1] + 1
    {
      out := out0;
      ghost var was, m := at, 0;
      TakenNone(v, at, back, out0);
      while |out| < n
        invariant |out| <= n && Taken(v, was, back, out0, out, at, m) && (cut.Some? ==> m <= cut.value)
        decreases n - |out|
      {
        var e := if cut == Some(|out| - |out0|) then None else FirstUnverified(v, at, back - 1);
        if e.None? {
          break;
        }
        TakeOne(v, was, back, out0, out, at, m);
        out := out + [e.value];
        at := e.value + 1;
        m := m + 1;
      }
    }

    /** One window of the outer loop; stop when backward returns. */
    method Descend(v: set<int>, h: History, n: int, out0: seq<int>, cut: Option<nat>)
      returns (stop: bool, out: seq<int>)
      requires |out0| < n && h.from < back
      modifies this`back, this`at
      ensures WindowOf(v, h.from, StrideOr(), n, old(Sweeping()), out0, cut)
              == if stop || |out| >= n then Done(Sweeping(), out) else More(Sweeping(), out)
    {
      ghost var w, stride := Sweeping(), StrideOr();
      var lo := back - StrideOr();
      if lo < h.from {
        lo := h.from;
      }
      if at < lo || at >= back {
        at := lo;
      }
      assert lo == Floor(h.from, stride, w) && at == Start(h.from, stride, w);
      out := Window(v, n, out0, cut);
      assert WindowOf(v, h.from, stride, n, w, out0, cut) == Leave(n, lo, back, at, out);
      if |out| == n && at < back {
        return true, out;
      }
      back := lo;
      at := 0;
      return false, out;
    }

    /** The outer loop's body. */
    method Turn(v: set<int>, h: History, n: int, out0: seq<int>, cut: Option<nat>)
      returns (stop: bool, out: seq<int>)
      requires 0 <= h.from && |out0| < n
      modifies this`back, this`at
      ensures TurnOf(v, h.from, fwd, StrideOr(), n, old(Sweeping()), out0, cut)
              == if stop || |out| >= n then Done(Sweeping(), out) else More(Sweeping(), out)
    {
      out := out0;
      if back <= h.from {
        back := fwd;
        at := 0;
        if back <= h.from {
          return true, out;
        }
      }
      stop, out := Descend(v, h, n, out, cut);
    }

    /** backward. Its caller must know that it returns; see Returns. */
    method Backward(v: set<int>, h: History, n: int) returns (out: seq<int>, ghost laps: nat)
      requires 0 <= h.from && Returns(v, h.from, fwd, StrideOr(), n, Sweeping(), [])
      modifies this`back, this`at
      ensures Swept(v, h.from, fwd, StrideOr(), old(Sweeping()), out, Sweeping(), laps)
      ensures |out| <= if n <= 0 then 0 else n
      ensures 0 < n && h.from < fwd ==> |out| == n
      ensures fwd <= h.from && |out| < n ==> Rest(v, h.from, StrideOr(), Sweeping()) == []
    {
      out, laps := [], 0;
      ghost var was, stride := Sweeping(), StrideOr();
      NothingSwept(v, h.from, fwd, stride, was);
      if n <= 0 {
        return;
      }
      while |out| < n
        invariant stride == StrideOr() && Underway(v, h.from, fwd, stride, n, was, out, Sweeping(), laps)
        decreases n - |out|, Rank(v, h.from, fwd, stride, Sweeping())
      {
        laps := TurnSweeps(v, h.from, fwd, stride, n, was, out, Sweeping(), laps);
        var stop;
        stop, out := Turn(v, h, n, out, None);
        if stop {
          return;
        }
      }
    }
  }

  // ----- any number of calls

  /** A call of backward: the verified set and forward cursor it saw, what it offered, where it left
      the sweep, and how many descents it began. */
  datatype Call = Call(v: set<int>, fwd: int, out: seq<int>, q: Pos, laps: nat)

  ghost predicate Ran(from: int, stride: nat, p: Pos, calls: seq<Call>)
    requires 0 < stride
    decreases |calls|
  {
    calls == []
    || (Swept(calls[0].v, from, calls[0].fwd, stride, p, calls[0].out, calls[0].q, calls[0].laps)
        && Ran(from, stride, calls[0].q, calls[1..]))
  }

  function EndOf(p: Pos, calls: seq<Call>): Pos {
    if calls == [] then p else calls[|calls| - 1].q
  }

  lemma {:induction false} CallOffers(from: int, stride: nat, p: Pos, c: Call, e: int)
    requires 0 <= from && 0 < stride && Swept(c.v, from, c.fwd, stride, p, c.out, c.q, c.laps)
    requires Ahead(from, stride, p, e) && e !in c.v
    ensures e in c.out || (c.laps == 0 && Ahead(from, stride, c.q, e))
  {
    RestIsAhead(c.v, from, stride, p, e);
    RestIsAhead(c.v, from, stride, c.q, e);
    var r, x := Rest(c.v, from, stride, p), Times(Rest(c.v, from, stride, Pos(c.fwd, 0)), c.laps);
    var i :| 0 <= i < |r| && r[i] == e;
    var whole := c.out + Rest(c.v, from, stride, c.q);
    assert whole[i] == (r + x)[i] == e;
    if c.laps > 0 {
      assert c.out[i] == whole[i];
    } else {
      assert e in whole;
    }
  }

  /** Coverage, over any number of calls, whatever is verified and however the forward cursor moves
      between them: an epoch ahead of the sweep that stays unverified is offered by some call, or
      the same descent still has it ahead. So one full descent offers every such epoch. */
  lemma {:induction false} DescentOffersAll(from: int, stride: nat, p: Pos, calls: seq<Call>, e: int)
    requires 0 <= from && 0 < stride && Ran(from, stride, p, calls)
    requires Ahead(from, stride, p, e) && forall i | 0 <= i < |calls| :: e !in calls[i].v
    ensures (exists i :: 0 <= i < |calls| && e in calls[i].out)
         || ((forall i | 0 <= i < |calls| :: calls[i].laps == 0) && Ahead(from, stride, EndOf(p, calls), e))
    decreases |calls|
  {
    if calls != [] {
      var c, rest := calls[0], calls[1..];
      CallOffers(from, stride, p, c, e);
      if e !in c.out {
        assert forall i | 0 <= i < |rest| :: rest[i] == calls[i + 1];
        DescentOffersAll(from, stride, c.q, rest, e);
        if i :| 0 <= i < |rest| && e in rest[i].out { assert e in calls[i + 1].out; }
        assert EndOf(c.q, rest) == EndOf(p, calls);
      }
    }
  }

  // ----- how long a descent takes

  lemma {:induction false} UnverifiedShrinks(v: set<int>, w: set<int>, lo: int, hi: int)
    requires v <= w
    ensures |Unverified(w, lo, hi)| <= |Unverified(v, lo, hi)| <= Max(0, hi - lo)
    decreases hi - lo
  {
    if lo < hi { UnverifiedShrinks(v, w, lo + 1, hi); }
  }

  /** What is left of a descent grows no longer as more is verified, and is never longer than the
      history below it. */
  lemma {:induction false} RestShrinks(v: set<int>, w: set<int>, from: int, stride: nat, p: Pos)
    requires 0 < stride && v <= w
    ensures |Rest(w, from, stride, p)| <= |Rest(v, from, stride, p)| <= Max(0, p.back - from)
    decreases p.back - from
  {
    if p.back > from {
      UnverifiedShrinks(v, w, Start(from, stride, p), p.back);
      RestShrinks(v, w, from, stride, Pos(Floor(from, stride, p), 0));
    }
  }

  /** What is verified stays verified. */
  predicate Growing(calls: seq<Call>) {
    forall i | 0 < i < |calls| :: calls[i - 1].v <= calls[i].v
  }

  /** How many epochs the calls offer. */
  function Offering(calls: seq<Call>): nat
    decreases |calls|
  {
    if calls == [] then 0 else |calls[0].out| + Offering(calls[1..])
  }

  /** A descent is bounded: while verified epochs stay so, an epoch ahead of the sweep that stays
      unverified has been offered by the time the calls have offered as many epochs as the descent
      had left when the first of them began; and that is no more than the history below it. */
  lemma {:induction false} DescentIsBounded(from: int, stride: nat, p: Pos, calls: seq<Call>, e: int)
    requires 0 <= from && 0 < stride && calls != [] && Ran(from, stride, p, calls) && Growing(calls)
    requires Ahead(from, stride, p, e) && forall i | 0 <= i < |calls| :: e !in calls[i].v
    ensures |Rest(calls[0].v, from, stride, p)| <= p.back - from
    ensures Offering(calls) >= |Rest(calls[0].v, from, stride, p)| ==> exists i :: 0 <= i < |calls| && e in calls[i].out
    decreases |calls|
  {
    var c, rest := calls[0], calls[1..];
    RestShrinks(c.v, c.v, from, stride, p);
    if Offering(calls) >= |Rest(c.v, from, stride, p)| {
      CallOffers(from, stride, p, c, e);
      if e !in c.out {
        RestIsAhead(c.v, from, stride, c.q, e);
        TurnLength(c.out, Rest(c.v, from, stride, c.q), Rest(c.v, from, stride, p), []);
        assert Offering(rest) >= |Rest(c.v, from, stride, c.q)| > 0;
        assert forall i | 0 <= i < |rest| :: rest[i] == calls[i + 1];
        RestShrinks(c.v, rest[0].v, from, stride, c.q);
        DescentIsBounded(from, stride, c.q, rest, e);
        var i :| 0 <= i < |rest| && e in rest[i].out;
        assert e in calls[i + 1].out;
      }
    }
  }

  /** A call of forward, the store not failing. */
  datatype Advance = Advance(v: set<int>, last: int, n: int)

  function Fwd(fwd: int, calls: seq<Advance>): int
    decreases |calls|
  {
    if calls == [] then fwd else Fwd(ForwardTo(calls[0].v, fwd, calls[0].last, calls[0].n, None), calls[1..])
  }

  /** What the i-th call offers. */
  function Offered(fwd: int, calls: seq<Advance>, i: nat): seq<int>
    requires i < |calls|
    decreases i
  {
    var c := calls[0];
    if i == 0 then Unverified(c.v, fwd, c.last + 1)[..Offers(c.v, fwd, c.last, c.n, None)]
    else Offered(ForwardTo(c.v, fwd, c.last, c.n, None), calls[1..], i - 1)
  }

  /** Over any run of forward, every epoch the cursor passes was verified when a call passed it, or
      was offered by that call; and the cursor never moves down. */
  lemma {:induction false} ForwardCovers(fwd: int, calls: seq<Advance>, e: int)
    ensures fwd <= Fwd(fwd, calls)
    ensures fwd <= e < Fwd(fwd, calls) ==>
              exists i :: 0 <= i < |calls| && (e in calls[i].v || e in Offered(fwd, calls, i))
    decreases |calls|
  {
    if calls != [] {
      var c, rest := calls[0], calls[1..];
      var next := ForwardTo(c.v, fwd, c.last, c.n, None);
      ForwardPasses(c.v, fwd, c.last, c.n, None);
      ForwardCovers(next, rest, e);
      assert !Skips(c.v, fwd, c.last, c.n, None, e);
      if fwd <= e < next {
        assert e in calls[0].v || e in Offered(fwd, calls, 0);
      } else if next <= e < Fwd(next, rest) {
        var i :| 0 <= i < |rest| && (e in rest[i].v || e in Offered(next, rest, i));
        assert e in calls[i + 1].v || e in Offered(fwd, calls, i + 1);
      }
    }
  }
}
