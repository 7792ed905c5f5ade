/** The minutiae matcher: greedy suppression, and the alignment search that scores two
    templates. Floating point is modelled by real numbers, and distances are compared by
    their squares. */
module Matcher {
  import opened Basics

  datatype Minutia = Minutia(x: real, y: real, theta: real, kind: string)

  /** Sine, cosine and pi, as the search uses them. */
  datatype Trig = Trig(cos: real -> real, sin: real -> real, pi: real)

  const DIST_TOL := 12.0

  function AngleTol(t: Trig): real { 20.0 * t.pi / 180.0 }

  // ---------------------------------------------------------------- _suppress_close

  predicate Far(m: Minutia, k: Minutia, minDist: real) {
    (m.x - k.x) * (m.x - k.x) + (m.y - k.y) * (m.y - k.y) >= minDist * minDist
  }

  predicate FarFromAll(m: Minutia, kept: seq<Minutia>, minDist: real) {
    forall i :: 0 <= i < |kept| ==> Far(m, kept[i], minDist)
  }

  function Suppress(ms: seq<Minutia>, minDist: real): seq<Minutia> {
    if ms == [] then []
    else
      var kept := Suppress(ms[..|ms| - 1], minDist);
      if FarFromAll(ms[|ms| - 1], kept, minDist) then kept + [ms[|ms| - 1]] else kept
  }

  method SuppressClose(ms: seq<Minutia>, minDist: real) returns (kept: seq<Minutia>)
    ensures kept == Suppress(ms, minDist)
  {
    kept := [];
    var i := 0;
    while i < |ms|
      invariant 0 <= i <= |ms|
      invariant kept == Suppress(ms[..i], minDist)
    {
      assert ms[..i + 1][..i] == ms[..i];
      if FarFromAll(ms[i], kept, minDist) {
        kept := kept + [ms[i]];
      }
      i := i + 1;
    }
    assert ms[..|ms|] == ms;
  }

  // ---------------------------------------------------------------- geometry of one pairing

  /** Python's % on floats: the remainder with the sign of the modulus. */
  function Mod(x: real, m: real): real
    requires m > 0.0
  {
    x - m * (x / m).Floor as real
  }

  function AngleDiff(t: Trig, a: real, b: real): real
    requires t.pi > 0.0
  {
    Abs(Mod(a - b + t.pi, 2.0 * t.pi) - t.pi)
  }

  datatype Vec = Vec(x: real, y: real)

  function Rot(c: real, s: real, v: Vec): Vec { Vec(v.x * c - v.y * s, v.x * s + v.y * c) }

  function Plus(v: Vec, w: Vec): Vec { Vec(v.x + w.x, v.y + w.y) }

  function Minus(v: Vec, w: Vec): Vec { Vec(v.x - w.x, v.y - w.y) }

  function NormSq(v: Vec): real { v.x * v.x + v.y * v.y }

  function Pos(m: Minutia): Vec { Vec(m.x, m.y) }

  /** Where the alignment taking ma onto mb puts minutia m. */
  function Place(t: Trig, ma: Minutia, mb: Minutia, m: Minutia): Vec {
    var dtheta := mb.theta - ma.theta;
    var c, s := t.cos(dtheta), t.sin(dtheta);
    Plus(Rot(c, s, Pos(m)), Minus(Pos(mb), Rot(c, s, Pos(ma))))
  }

  function DistSq(t: Trig, ma: Minutia, mb: Minutia, m: Minutia, other: Minutia): real {
    NormSq(Minus(Place(t, ma, mb, m), Pos(other)))
  }

  function Turned(t: Trig, ma: Minutia, mb: Minutia, m: Minutia): real
    requires t.pi > 0.0
  {
    Mod(m.theta + (mb.theta - ma.theta), 2.0 * t.pi)
  }

  /** Same kind, within both tolerances. */
  predicate Matches(t: Trig, ma: Minutia, mb: Minutia, m: Minutia, other: Minutia)
    requires t.pi > 0.0
  {
    && other.kind == m.kind
    && DistSq(t, ma, mb, m, other) <= DIST_TOL * DIST_TOL
    && AngleDiff(t, Turned(t, ma, mb, m), other.theta) <= AngleTol(t)
  }

  // ---------------------------------------------------------------- one alignment

  /** The partner chosen for m among b[..n]: the nearest unused match, the first on a tie; -1 for none. */
  function Best(t: Trig, ma: Minutia, mb: Minutia, m: Minutia, b: seq<Minutia>, used: seq<int>, n: nat): (j: int)
    requires t.pi > 0.0 && n <= |b|
    ensures -1 <= j < n
    ensures j >= 0 ==> j !in used && Matches(t, ma, mb, m, b[j])
  {
    if n == 0 then -1
    else
      var prev := Best(t, ma, mb, m, b, used, n - 1);
      if n - 1 !in used && Matches(t, ma, mb, m, b[n - 1])
         && (prev == -1 || DistSq(t, ma, mb, m, b[n - 1]) < DistSq(t, ma, mb, m, b[prev]))
      then n - 1 else prev
  }

  /** The partners of a[..n], in order. */
  function Partners(t: Trig, ma: Minutia, mb: Minutia, a: seq<Minutia>, b: seq<Minutia>, n: nat): (ps: seq<int>)
    requires t.pi > 0.0 && n <= |a|
    ensures |ps| == n
  {
    if n == 0 then []
    else
      var used := Partners(t, ma, mb, a, b, n - 1);
      used + [Best(t, ma, mb, a[n - 1], b, used, |b|)]
  }

  function Count(ps: seq<int>): nat {
    if ps == [] then 0 else Count(ps[..|ps| - 1]) + (if ps[|ps| - 1] >= 0 then 1 else 0)
  }

  /** Inliers of the alignment implied by a[i] and b[j]; none when their kinds differ. */
  function Inliers(t: Trig, a: seq<Minutia>, b: seq<Minutia>, i: nat, j: nat): nat
    requires t.pi > 0.0 && i < |a| && j < |b|
  {
    if a[i].kind != b[j].kind then 0 else Count(Partners(t, a[i], b[j], a, b, |a|))
  }

  function Max(x: nat, y: nat): nat { if x >= y then x else y }

  function BestInRow(t: Trig, a: seq<Minutia>, b: seq<Minutia>, i: nat, n: nat): nat
    requires t.pi > 0.0 && i < |a| && n <= |b|
  {
    if n == 0 then 0 else Max(BestInRow(t, a, b, i, n - 1), Inliers(t, a, b, i, n - 1))
  }

  function BestInliers(t: Trig, a: seq<Minutia>, b: seq<Minutia>, n: nat): nat
    requires t.pi > 0.0 && n <= |a|
  {
    if n == 0 then 0 else Max(BestInliers(t, a, b, n - 1), BestInRow(t, a, b, n - 1, |b|))
  }

  function Denom(a: seq<Minutia>, b: seq<Minutia>): real { (|a| + |b|) as real / 2.0 }

  /** max(0, min(1, x)) */
  function Clamp(x: real): real { if x < 0.0 then 0.0 else if x > 1.0 then 1.0 else x }

  function Score(t: Trig, a: seq<Minutia>, b: seq<Minutia>): real
    requires t.pi > 0.0
  {
    if a == [] || b == [] then 0.0 else Clamp(BestInliers(t, a, b, |a|) as real / Denom(a, b))
  }

  // ---------------------------------------------------------------- compare_templates

  /** The innermost loop. */
  method FindPartner(t: Trig, ma: Minutia, mb: Minutia, m: Minutia, b: seq<Minutia>, used: seq<int>) returns (bestJ: int)
    requires t.pi > 0.0
    ensures bestJ == Best(t, ma, mb, m, b, used, |b|)
  {
    bestJ := -1;
    var bestD := (DIST_TOL + 1.0) * (DIST_TOL + 1.0);
    var j := 0;
    while j < |b|
      invariant 0 <= j <= |b|
      invariant bestJ == Best(t, ma, mb, m, b, used, j)
      invariant bestD == if bestJ == -1 then (DIST_TOL + 1.0) * (DIST_TOL + 1.0) else DistSq(t, ma, mb, m, b[bestJ])
    {
      if j !in used && b[j].kind == m.kind {
        var d := DistSq(t, ma, mb, m, b[j]);
        if d <= DIST_TOL * DIST_TOL && AngleDiff(t, Turned(t, ma, mb, m), b[j].theta) <= AngleTol(t) && d < bestD {
          bestJ, bestD := j, d;
        }
      }
      j := j + 1;
    }
  }

  /** The pairing loop under one alignment. */
  method CountInliers(t: Trig, ma: Minutia, mb: Minutia, a: seq<Minutia>, b: seq<Minutia>) returns (inliers: nat)
    requires t.pi > 0.0
    ensures inliers == Count(Partners(t, ma, mb, a, b, |a|))
  {
    inliers := 0;
    var used: seq<int> := [];
    var k := 0;
    while k < |a|
      invariant 0 <= k <= |a|
      invariant used == Partners(t, ma, mb, a, b, k)
      invariant inliers == Count(used)
    {
      var bestJ := FindPartner(t, ma, mb, a[k], b, used);
      assert (used + [bestJ])[..|used|] == used;
      used := used + [bestJ];
      if bestJ >= 0 {
        inliers := inliers + 1;
      }
      k := k + 1;
    }
  }

  /** The loop over b for one minutia of a. */
  method ScanRow(t: Trig, a: seq<Minutia>, b: seq<Minutia>, i: nat, before: nat) returns (bestInliers: nat)
    requires t.pi > 0.0 && i < |a|
    ensures bestInliers == Max(before, BestInRow(t, a, b, i, |b|))
  {
    bestInliers := before;
    var j := 0;
    while j < |b|
      invariant 0 <= j <= |b|
      invariant bestInliers == Max(before, BestInRow(t, a, b, i, j))
    {
      if a[i].kind == b[j].kind {
        var inliers := CountInliers(t, a[i], b[j], a, b);
        bestInliers := Max(bestInliers, inliers);
      }
      j := j + 1;
    }
  }

  method CompareTemplates(t: Trig, a: seq<Minutia>, b: seq<Minutia>) returns (score: real)
    requires t.pi > 0.0
    ensures score == Score(t, a, b)
  {
    if a == [] || b == [] {
      return 0.0;
    }
    var bestInliers: nat := 0;
    var i := 0;
    while i < |a|
      invariant 0 <= i <= |a|
      invariant bestInliers == BestInliers(t, a, b, i)
    {
      bestInliers := ScanRow(t, a, b, i, bestInliers);
      i := i + 1;
    }
    score := Clamp(bestInliers as real / Denom(a, b));
  }
}
