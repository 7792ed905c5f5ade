/** When two minutiae pair up under an alignment, and which partner is chosen, in the
    coordinates of the templates. */
module MatcherMeaning {
  import opened Basics
  import opened Matcher

  // ---------------------------------------------------------------- angles

  /** k whole turns. */
  function Turns(t: Trig, k: int): real { 2.0 * t.pi * k as real }

  /** Up to whole turns x is at most tol away from 0. */
  ghost predicate WithinTurns(t: Trig, x: real, tol: real) { exists k :: -tol <= x - Turns(t, k) <= tol }

  lemma ProductBounds(f: real, m: real)
    requires m > 0.0 && 0.0 <= f < 1.0
    ensures 0.0 <= f * m < m
  {
  }

  lemma ProductSign(f: real, m: real)
    requires m > 0.0
    ensures f > 0.0 ==> f * m > 0.0
    ensures f >= 0.0 ==> f * m >= 0.0
  {
  }

  lemma Spread(p: real, q: real, m: real)
    ensures (p - q) * m == p * m - m * q
  {
  }

  lemma Quotient(x: real, m: real)
    requires m > 0.0
    ensures x / m * m == x
  {
  }

  lemma Parts(q: real, n: real, f: real, m: real, qm: real, mn: real, fm: real)
    requires q == n + f && qm == q * m && mn == m * n && fm == f * m
    ensures qm == mn + fm
  {
  }

  lemma PartBound(f: real, m: real, fm: real)
    requires m > 0.0 && 0.0 <= f < 1.0 && fm == f * m
    ensures 0.0 <= fm < m
  {
    ProductBounds(f, m);
  }

  /** What is left of x once m has been taken from it as often as it goes. */
  lemma FloorPart(q: real, n: real, x: real, m: real, mn: real)
    requires m > 0.0 && x == q * m && mn == m * n && n <= q < n + 1.0
    ensures 0.0 <= x - mn < m
  {
    var f: real, fm: real := q - n, (q - n) * m;
    Parts(q, n, f, m, x, mn, fm);
    PartBound(f, m, fm);
  }

  lemma ModBounds(x: real, m: real)
    requires m > 0.0
    ensures Mod(x, m) == x - m * (x / m).Floor as real && 0.0 <= Mod(x, m) < m
  {
    Quotient(x, m);
    FloorPart(x / m, (x / m).Floor as real, x, m, m * (x / m).Floor as real);
  }

  lemma WholeTurns(x: real, m: real, k: int)
    requires m > 0.0 && m * k as real <= x < m * k as real + m
    ensures (x / m).Floor == k
  {
    Quotient(x, m);
    WholePart(x / m, x, m, k);
  }

  lemma WholePart(q: real, x: real, m: real, k: int)
    requires m > 0.0 && q * m == x && m * k as real <= x < m * k as real + m
    ensures q.Floor == k
  {
    var km := m * k as real;
    NotAbove(q, m, k, km);
    NotBelow(q, m, k);
  }

  lemma NotBelow(q: real, m: real, k: int)
    requires m > 0.0 && m * k as real <= q * m
    ensures k as real <= q
  {
    Spread(q, k as real, m);
    if q < k as real {
      ProductSign(k as real - q, m);
      Spread(k as real, q, m);
    }
  }

  lemma NotAbove(q: real, m: real, k: int, km: real)
    requires m > 0.0 && km == m * k as real && q * m < km + m
    ensures q < k as real + 1.0
  {
    if q >= k as real + 1.0 {
      var over := q - (k as real + 1.0);
      Parts(q, k as real + 1.0, over, m, q * m, m * (k as real + 1.0), over * m);
      ProductSign(over, m);
    }
  }

  /** The difference of two angles is a distance between them around the circle, at most half
      a turn. */
  lemma AngleDiffIs(t: Trig, a: real, b: real) returns (k: int)
    requires t.pi > 0.0
    ensures AngleDiff(t, a, b) == (if a - b >= Turns(t, k) then a - b - Turns(t, k) else Turns(t, k) - (a - b))
    ensures AngleDiff(t, a, b) <= t.pi
  {
    k := ((a - b + t.pi) / (2.0 * t.pi)).Floor;
    ModBounds(a - b + t.pi, 2.0 * t.pi);
    assert Mod(a - b + t.pi, 2.0 * t.pi) == a - b + t.pi - Turns(t, k);
    hide Mod;
  }

  /** Less than half a turn apart means so up to whole turns. */
  lemma WithinIff(t: Trig, a: real, b: real, tol: real)
    requires t.pi > 0.0 && 0.0 <= tol < t.pi
    ensures AngleDiff(t, a, b) <= tol <==> WithinTurns(t, a - b, tol)
  {
    var k := AngleDiffIs(t, a, b);
    hide AngleDiff;
    if AngleDiff(t, a, b) <= tol {
      assert -tol <= a - b - Turns(t, k) <= tol;
    }
    if n :| -tol <= a - b - Turns(t, n) <= tol {
      TurnsAre(t, a, b, n, tol);
    }
  }

  lemma TurnsAre(t: Trig, a: real, b: real, n: int, tol: real)
    requires t.pi > 0.0 && 0.0 <= tol < t.pi && -tol <= a - b - Turns(t, n) <= tol
    ensures AngleDiff(t, a, b) <= tol
  {
    var x, m := a - b + t.pi, 2.0 * t.pi;
    WholeTurns(x, m, n);
    ModBounds(x, m);
    assert AngleDiff(t, a, b) == Abs(Mod(x, m) - t.pi);
    assert Turns(t, n) == m * n as real;
    hide Mod, AngleDiff, Turns;
    assert Mod(x, m) - t.pi == a - b - Turns(t, n);
  }

  // ---------------------------------------------------------------- a pair

  /** How far m lies from other once ma is laid on mb with its direction: the offset from ma,
      turned by the difference of the two directions, taken from mb. */
  function OffX(t: Trig, ma: Minutia, mb: Minutia, m: Minutia, other: Minutia): real {
    (m.x - ma.x) * t.cos(mb.theta - ma.theta) - (m.y - ma.y) * t.sin(mb.theta - ma.theta) + mb.x - other.x
  }

  function OffY(t: Trig, ma: Minutia, mb: Minutia, m: Minutia, other: Minutia): real {
    (m.x - ma.x) * t.sin(mb.theta - ma.theta) + (m.y - ma.y) * t.cos(mb.theta - ma.theta) + mb.y - other.y
  }

  ghost function OffSq(t: Trig, ma: Minutia, mb: Minutia, m: Minutia, other: Minutia): real {
    OffX(t, ma, mb, m, other) * OffX(t, ma, mb, m, other) + OffY(t, ma, mb, m, other) * OffY(t, ma, mb, m, other)
  }

  /** Two minutiae pair up: one kind, at most 12 pixels apart, directions at most 20 degrees
      apart around the circle. */
  ghost predicate Pairable(t: Trig, ma: Minutia, mb: Minutia, m: Minutia, other: Minutia) {
    && other.kind == m.kind && OffSq(t, ma, mb, m, other) <= 144.0
    && WithinTurns(t, m.theta + mb.theta - ma.theta - other.theta, t.pi / 9.0)
  }

  lemma DistSqIs(t: Trig, ma: Minutia, mb: Minutia, m: Minutia, other: Minutia)
    ensures DistSq(t, ma, mb, m, other) == OffSq(t, ma, mb, m, other)
  {
    var d := mb.theta - ma.theta;
    var p := Minus(Place(t, ma, mb, m), Pos(other));
    assert p.x == OffX(t, ma, mb, m, other) by {
      assert (m.x - ma.x) * t.cos(d) == m.x * t.cos(d) - ma.x * t.cos(d);
      assert (m.y - ma.y) * t.sin(d) == m.y * t.sin(d) - ma.y * t.sin(d);
    }
    assert p.y == OffY(t, ma, mb, m, other) by {
      assert (m.x - ma.x) * t.sin(d) == m.x * t.sin(d) - ma.x * t.sin(d);
      assert (m.y - ma.y) * t.cos(d) == m.y * t.cos(d) - ma.y * t.cos(d);
    }
  }

  /** Whole turns added to an angle change nothing. */
  lemma TurnsIgnored(t: Trig, x: real, y: real, n: int, tol: real)
    requires y == x - Turns(t, n)
    ensures WithinTurns(t, y, tol) <==> WithinTurns(t, x, tol)
  {
    if k :| -tol <= y - Turns(t, k) <= tol {
      TurnsAdd(t, k, n);
      assert -tol <= x - Turns(t, k + n) <= tol;
    }
    if k :| -tol <= x - Turns(t, k) <= tol {
      TurnsAdd(t, k, -n);
      TurnsAdd(t, n, -n);
      assert -tol <= y - Turns(t, k + -n) <= tol;
    }
  }

  lemma TurnsAdd(t: Trig, k: int, n: int)
    ensures Turns(t, k + n) == Turns(t, k) + Turns(t, n)
  {
    assert (k + n) as real == k as real + n as real;
  }

  lemma TurnedWithin(t: Trig, x: real, b: real, tol: real)
    requires t.pi > 0.0 && 0.0 <= tol < t.pi
    ensures AngleDiff(t, Mod(x, 2.0 * t.pi), b) <= tol <==> WithinTurns(t, x - b, tol)
  {
    ModBounds(x, 2.0 * t.pi);
    WithinIff(t, Mod(x, 2.0 * t.pi), b, tol);
    hide AngleDiff, Mod, WithinTurns;
    TurnsIgnored(t, x - b, Mod(x, 2.0 * t.pi) - b, (x / (2.0 * t.pi)).Floor, tol);
  }

  lemma MatchesIff(t: Trig, ma: Minutia, mb: Minutia, m: Minutia, other: Minutia)
    requires t.pi > 0.0
    ensures Matches(t, ma, mb, m, other) <==> Pairable(t, ma, mb, m, other)
  {
    DistSqIs(t, ma, mb, m, other);
    var x := m.theta + (mb.theta - ma.theta);
    assert AngleTol(t) == t.pi / 9.0;
    TurnedWithin(t, x, other.theta, AngleTol(t));
    hide AngleDiff, DistSq, OffSq, Mod, WithinTurns;
    assert DIST_TOL * DIST_TOL == 144.0;
    assert x - other.theta == m.theta + mb.theta - ma.theta - other.theta;
  }

  // ---------------------------------------------------------------- the partner

  /** j is the nearest minutia of b[..n] that pairs up with m and is not used, the first among
      equals; -1 when there is none. */
  ghost predicate Nearest(t: Trig, ma: Minutia, mb: Minutia, m: Minutia, b: seq<Minutia>, used: seq<int>, n: nat, j: int)
    requires n <= |b|
  {
    && -1 <= j < n
    && (j >= 0 ==> j !in used && Pairable(t, ma, mb, m, b[j]))
    && forall k :: 0 <= k < n && k !in used && Pairable(t, ma, mb, m, b[k]) ==>
      && j >= 0 && OffSq(t, ma, mb, m, b[j]) <= OffSq(t, ma, mb, m, b[k])
      && (k < j ==> OffSq(t, ma, mb, m, b[j]) < OffSq(t, ma, mb, m, b[k]))
  }

  lemma {:induction false} BestIsNearest(t: Trig, ma: Minutia, mb: Minutia, m: Minutia, b: seq<Minutia>, used: seq<int>, n: nat)
    requires t.pi > 0.0 && n <= |b|
    ensures Nearest(t, ma, mb, m, b, used, n, Best(t, ma, mb, m, b, used, n))
  {
    if n > 0 {
      BestIsNearest(t, ma, mb, m, b, used, n - 1);
      var prev := Best(t, ma, mb, m, b, used, n - 1);
      MatchesIff(t, ma, mb, m, b[n - 1]);
      DistSqIs(t, ma, mb, m, b[n - 1]);
      if prev >= 0 {
        DistSqIs(t, ma, mb, m, b[prev]);
      }
      hide Pairable, OffSq, DistSq, Matches;
    }
  }

  /** Each minutia of a in turn is given the nearest partner that those before it left. */
  lemma {:induction false} PartnersAreNearest(t: Trig, ma: Minutia, mb: Minutia, a: seq<Minutia>, b: seq<Minutia>, n: nat)
    requires t.pi > 0.0 && n <= |a|
    ensures var ps := Partners(t, ma, mb, a, b, n);
      |ps| == n && forall i :: 0 <= i < n ==> Nearest(t, ma, mb, a[i], b, ps[..i], |b|, ps[i])
  {
    if n > 0 {
      PartnersAreNearest(t, ma, mb, a, b, n - 1);
      var used, ps := Partners(t, ma, mb, a, b, n - 1), Partners(t, ma, mb, a, b, n);
      BestIsNearest(t, ma, mb, a[n - 1], b, used, |b|);
      assert ps == used + [ps[n - 1]] && |used| == n - 1 && ps[n - 1] == Best(t, ma, mb, a[n - 1], b, used, |b|);
      hide Nearest, Best, Partners;
      forall i | 0 <= i < n ensures Nearest(t, ma, mb, a[i], b, ps[..i], |b|, ps[i]) {
        assert ps[..i] == used[..i];
        assert used[..n - 1] == used;
      }
    }
  }
}
