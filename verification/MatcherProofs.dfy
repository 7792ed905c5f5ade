/** What the matcher's score means: it is unchanged by rigid motion of either template,
    it lies in [0,1] without its clamp, it is attained by a one-to-one pairing, and every
    suppressed template scores exactly 1 against any rigidly moved copy of itself. */
module MatcherProofs {
  import opened Matcher

  // ---------------------------------------------------------------- suppression

  function Gap(m: Minutia, k: Minutia): real { (m.x - k.x) * (m.x - k.x) + (m.y - k.y) * (m.y - k.y) }

  ghost predicate PairwiseFar(ms: seq<Minutia>, minDist: real) {
    forall i, j :: 0 <= i < j < |ms| ==> Gap(ms[j], ms[i]) >= minDist * minDist
  }

  /** Element i is in the list or closer than minDist to an earlier one that is. */
  ghost predicate CoveredAt(ms: seq<Minutia>, kept: seq<Minutia>, minDist: real, i: nat)
    requires i < |ms|
  {
    ms[i] in kept || exists j :: 0 <= j < i && ms[j] in kept && Gap(ms[i], ms[j]) < minDist * minDist
  }

  /** sub is obtained from ms by leaving elements out. */
  ghost predicate Subsequence(sub: seq<Minutia>, ms: seq<Minutia>) {
    sub == [] ||
    (ms != [] &&
     (Subsequence(sub, ms[..|ms| - 1])
      || (sub[|sub| - 1] == ms[|ms| - 1] && Subsequence(sub[..|sub| - 1], ms[..|ms| - 1]))))
  }

  /** The kept points are a subsequence, pairwise at least minDist apart, and every point is
      kept or closer than minDist to a kept one before it. */
  lemma {:induction false} SuppressIsMaximal(ms: seq<Minutia>, minDist: real)
    ensures var r := Suppress(ms, minDist);
      && Subsequence(r, ms) && PairwiseFar(r, minDist)
      && forall i :: 0 <= i < |ms| ==> CoveredAt(ms, r, minDist, i)
  {
    if ms != [] {
      var front, last := ms[..|ms| - 1], ms[|ms| - 1];
      SuppressIsMaximal(front, minDist);
      var kept, r := Suppress(front, minDist), Suppress(ms, minDist);
      assert ms == front + [last];
      SubsequenceMembers(kept, front);
      if FarFromAll(last, kept, minDist) {
        assert r[..|r| - 1] == kept && r[|r| - 1] == last;
        OneMoreFar(kept, last, minDist);
      }
      assert r == if FarFromAll(last, kept, minDist) then kept + [last] else kept;
      hide Suppress, Subsequence, PairwiseFar, FarFromAll, Gap, Far;
      forall i | 0 <= i < |front| ensures CoveredAt(ms, r, minDist, i) {
        StillCovered(front, last, kept, r, minDist, i);
      }
      LastCovered(front, last, kept, r, minDist);
    }
  }

  lemma OneMoreFar(kept: seq<Minutia>, last: Minutia, minDist: real)
    requires PairwiseFar(kept, minDist) && FarFromAll(last, kept, minDist)
    ensures PairwiseFar(kept + [last], minDist)
  {
    forall i | 0 <= i < |kept| ensures Gap(last, kept[i]) >= minDist * minDist {
      CloserOne(last, kept[i], minDist);
    }
    hide Gap, Far;
  }

  lemma StillCovered(front: seq<Minutia>, last: Minutia, kept: seq<Minutia>, r: seq<Minutia>, minDist: real, i: nat)
    requires i < |front| && CoveredAt(front, kept, minDist, i) && (r == kept || r == kept + [last])
    ensures CoveredAt(front + [last], r, minDist, i)
  {
    var ms := front + [last];
    if ms[i] !in r {
      var j :| 0 <= j < i && front[j] in kept && Gap(front[i], front[j]) < minDist * minDist;
      assert ms[j] in r;
    }
  }

  lemma LastCovered(front: seq<Minutia>, last: Minutia, kept: seq<Minutia>, r: seq<Minutia>, minDist: real)
    requires (forall m :: m in kept ==> m in front) && r == if FarFromAll(last, kept, minDist) then kept + [last] else kept
    ensures CoveredAt(front + [last], r, minDist, |front|)
  {
    var ms := front + [last];
    if !FarFromAll(last, kept, minDist) {
      var i :| 0 <= i < |kept| && !Far(last, kept[i], minDist);
      assert kept[i] in front;
      var j :| 0 <= j < |front| && front[j] == kept[i];
      CloserOne(last, kept[i], minDist);
      hide Gap, Far, FarFromAll;
      assert ms[j] == kept[i] && ms[|front|] == last;
    } else {
      hide Gap, Far, FarFromAll;
      assert ms[|front|] == last && r[|kept|] == last;
    }
  }

  lemma CloserOne(m: Minutia, k: Minutia, minDist: real)
    ensures Far(m, k, minDist) <==> Gap(m, k) >= minDist * minDist
  {
  }

  lemma {:induction false} SubsequenceMembers(sub: seq<Minutia>, ms: seq<Minutia>)
    requires Subsequence(sub, ms)
    ensures forall m :: m in sub ==> m in ms
  {
    if sub != [] {
      var front := ms[..|ms| - 1];
      if Subsequence(sub, front) {
        SubsequenceMembers(sub, front);
      } else {
        SubsequenceMembers(sub[..|sub| - 1], front);
        assert sub == sub[..|sub| - 1] + [sub[|sub| - 1]];
      }
    }
  }

  /** A template that is already spread out loses nothing. */
  lemma {:induction false} SuppressFixed(ms: seq<Minutia>, minDist: real)
    requires PairwiseFar(ms, minDist)
    ensures Suppress(ms, minDist) == ms
  {
    if ms != [] {
      var front, last := ms[..|ms| - 1], ms[|ms| - 1];
      hide Gap, Far;
      SuppressFixed(front, minDist);
      forall i | 0 <= i < |front| ensures Far(last, front[i], minDist) {
        CloserOne(last, front[i], minDist);
      }
      assert ms == front + [last];
    }
  }

  lemma SuppressIdempotent(ms: seq<Minutia>, minDist: real)
    ensures Suppress(Suppress(ms, minDist), minDist) == Suppress(ms, minDist)
  {
    SuppressIsMaximal(ms, minDist);
    SuppressFixed(Suppress(ms, minDist), minDist);
  }

  // ---------------------------------------------------------------- trigonometry and angles

  ghost predicate Adds(t: Trig, a: real, b: real) {
    && t.cos(a + b) == t.cos(a) * t.cos(b) - t.sin(a) * t.sin(b)
    && t.sin(a + b) == t.sin(a) * t.cos(b) + t.cos(a) * t.sin(b)
  }

  ghost predicate OnCircle(t: Trig, a: real) {
    t.cos(a) * t.cos(a) + t.sin(a) * t.sin(a) == 1.0
  }

  /** The identities of sine and cosine the proofs use. */
  ghost predicate TrigLaws(t: Trig) {
    && t.pi > 0.0 && t.cos(0.0) == 1.0 && t.sin(0.0) == 0.0
    && (forall a, b :: Adds(t, a, b))
    && (forall a :: OnCircle(t, a))
  }

  lemma FloorShift(x: real, k: int)
    ensures (x + k as real).Floor == x.Floor + k
  {
  }

  lemma DivShift(x: real, m: real, k: int)
    requires m > 0.0
    ensures (x + m * k as real) / m == x / m + k as real
  {
  }

  /** The remainder does not see whole multiples of the modulus. */
  lemma ModShift(x: real, m: real, k: int)
    requires m > 0.0
    ensures Mod(x + m * k as real, m) == Mod(x, m)
  {
    DivShift(x, m, k);
    FloorShift(x / m, k);
    assert m * ((x / m).Floor + k) as real == m * (x / m).Floor as real + m * k as real;
  }

  /** Reducing the first angle first changes nothing. */
  lemma AngleDiffReduced(t: Trig, a: real, b: real)
    requires t.pi > 0.0
    ensures AngleDiff(t, Mod(a, 2.0 * t.pi), b) == AngleDiff(t, a, b)
  {
    var m := 2.0 * t.pi;
    ModOfMod(a, t.pi - b, m);
    assert Mod(a, m) - b + t.pi == Mod(a, m) + (t.pi - b) && a - b + t.pi == a + (t.pi - b);
  }

  lemma ModOfMod(a: real, c: real, m: real)
    requires m > 0.0
    ensures Mod(Mod(a, m) + c, m) == Mod(a + c, m)
  {
    var k := -(a / m).Floor;
    var x, y := a + c, Mod(a, m) + c;
    assert m * k as real == -(m * (a / m).Floor as real);
    assert y == x + m * k as real;
    ModShift(x, m, k);
  }

  // ---------------------------------------------------------------- rigid motion

  /** Turn about the origin, then shift. */
  datatype Motion = Motion(angle: real, shift: Vec)

  function MoveVec(t: Trig, g: Motion, v: Vec): Vec {
    Plus(Rot(t.cos(g.angle), t.sin(g.angle), v), g.shift)
  }

  function MoveOne(t: Trig, g: Motion, m: Minutia): Minutia {
    var p := MoveVec(t, g, Pos(m));
    Minutia(p.x, p.y, m.theta + g.angle, m.kind)
  }

  function Move(t: Trig, g: Motion, ms: seq<Minutia>): (r: seq<Minutia>)
    ensures |r| == |ms| && forall i :: 0 <= i < |ms| ==> r[i] == MoveOne(t, g, ms[i])
  {
    if ms == [] then [] else Move(t, g, ms[..|ms| - 1]) + [MoveOne(t, g, ms[|ms| - 1])]
  }

  lemma RotOfDifference(c: real, s: real, v: Vec, w: Vec)
    ensures Minus(Rot(c, s, v), Rot(c, s, w)) == Rot(c, s, Minus(v, w))
  {
  }

  lemma RotCompose(c1: real, s1: real, c2: real, s2: real, v: Vec)
    ensures Rot(c1, s1, Rot(c2, s2, v)) == Rot(c1 * c2 - s1 * s2, s1 * c2 + c1 * s2, v)
  {
    var x, y := v.x, v.y;
    assert (x * c2 - y * s2) * c1 == x * (c1 * c2) - y * (s2 * c1);
    assert (x * s2 + y * c2) * s1 == x * (s1 * s2) + y * (c2 * s1);
    assert (x * c2 - y * s2) * s1 == x * (s1 * c2) - y * (s1 * s2);
    assert (x * s2 + y * c2) * c1 == x * (c1 * s2) + y * (c1 * c2);
  }

  /** Turning twice is turning by the sum. */
  lemma TurnTwice(t: Trig, p: real, q: real, v: Vec)
    requires TrigLaws(t)
    ensures Rot(t.cos(p), t.sin(p), Rot(t.cos(q), t.sin(q), v)) == Rot(t.cos(p + q), t.sin(p + q), v)
  {
    assert Adds(t, p, q);
    RotCompose(t.cos(p), t.sin(p), t.cos(q), t.sin(q), v);
  }

  lemma RotKeepsNorm(c: real, s: real, v: Vec)
    requires c * c + s * s == 1.0
    ensures NormSq(Rot(c, s, v)) == NormSq(v)
  {
    var x, y := v.x, v.y;
    assert (x * c - y * s) * (x * c - y * s) == x * x * (c * c) - 2.0 * (x * c * (y * s)) + y * y * (s * s);
    assert (x * s + y * c) * (x * s + y * c) == x * x * (s * s) + 2.0 * (x * s * (y * c)) + y * y * (c * c);
    assert x * c * (y * s) == x * s * (y * c);
    assert x * x * (c * c) + x * x * (s * s) == x * x * (c * c + s * s);
    assert y * y * (c * c) + y * y * (s * s) == y * y * (c * c + s * s);
  }

  /** Shifts cancel between two moved points. */
  lemma MovedDifference(t: Trig, g: Motion, v: Vec, w: Vec)
    ensures Minus(MoveVec(t, g, v), MoveVec(t, g, w)) == Rot(t.cos(g.angle), t.sin(g.angle), Minus(v, w))
  {
    RotOfDifference(t.cos(g.angle), t.sin(g.angle), v, w);
  }

  /** The placed point minus the point it is compared to: the turned offset from ma plus the offset from mb. */
  lemma ResidualForm(t: Trig, ma: Minutia, mb: Minutia, m: Minutia, other: Minutia)
    ensures var d := mb.theta - ma.theta;
      Minus(Place(t, ma, mb, m), Pos(other))
        == Plus(Rot(t.cos(d), t.sin(d), Minus(Pos(m), Pos(ma))), Minus(Pos(mb), Pos(other)))
  {
    var d := mb.theta - ma.theta;
    RotOfDifference(t.cos(d), t.sin(d), Pos(m), Pos(ma));
  }

  lemma RotPlus(c: real, s: real, v: Vec, w: Vec)
    ensures Plus(Rot(c, s, v), Rot(c, s, w)) == Rot(c, s, Plus(v, w))
  {
  }

  /** Moving either template rigidly keeps every distance the search measures. */
  lemma DistSqInvariant(t: Trig, g: Motion, h: Motion, ma: Minutia, mb: Minutia, m: Minutia, other: Minutia)
    requires TrigLaws(t)
    ensures DistSq(t, MoveOne(t, g, ma), MoveOne(t, h, mb), MoveOne(t, g, m), MoveOne(t, h, other))
         == DistSq(t, ma, mb, m, other)
  {
    var ma', mb', m', other' := MoveOne(t, g, ma), MoveOne(t, h, mb), MoveOne(t, g, m), MoveOne(t, h, other);
    var d, d' := mb.theta - ma.theta, mb'.theta - ma'.theta;
    var v, w := Minus(Pos(m), Pos(ma)), Minus(Pos(mb), Pos(other));
    ResidualForm(t, ma, mb, m, other);
    ResidualForm(t, ma', mb', m', other');
    MovedDifference(t, g, Pos(m), Pos(ma));
    MovedDifference(t, h, Pos(mb), Pos(other));
    TurnTwice(t, d', g.angle, v);
    TurnTwice(t, h.angle, d, v);
    assert d' + g.angle == h.angle + d;
    var ch, sh := t.cos(h.angle), t.sin(h.angle);
    RotPlus(ch, sh, Rot(t.cos(d), t.sin(d), v), w);
    assert OnCircle(t, h.angle);
    RotKeepsNorm(ch, sh, Plus(Rot(t.cos(d), t.sin(d), v), w));
  }

  lemma MatchesInvariant(t: Trig, g: Motion, h: Motion, ma: Minutia, mb: Minutia, m: Minutia, other: Minutia)
    requires TrigLaws(t)
    ensures Matches(t, MoveOne(t, g, ma), MoveOne(t, h, mb), MoveOne(t, g, m), MoveOne(t, h, other))
       <==> Matches(t, ma, mb, m, other)
  {
    DistSqInvariant(t, g, h, ma, mb, m, other);
    var turn, turn' := m.theta + (mb.theta - ma.theta), (m.theta + g.angle) + ((mb.theta + h.angle) - (ma.theta + g.angle));
    AngleDiffReduced(t, turn, other.theta);
    AngleDiffReduced(t, turn', other.theta + h.angle);
    assert turn' - (other.theta + h.angle) == turn - other.theta;
  }

  lemma {:induction false} BestInvariant(t: Trig, g: Motion, h: Motion, ma: Minutia, mb: Minutia, m: Minutia,
                                         b: seq<Minutia>, used: seq<int>, n: nat)
    requires TrigLaws(t) && n <= |b|
    ensures Best(t, MoveOne(t, g, ma), MoveOne(t, h, mb), MoveOne(t, g, m), Move(t, h, b), used, n) == Best(t, ma, mb, m, b, used, n)
  {
    if n > 0 {
      BestInvariant(t, g, h, ma, mb, m, b, used, n - 1);
      MatchesInvariant(t, g, h, ma, mb, m, b[n - 1]);
      DistSqInvariant(t, g, h, ma, mb, m, b[n - 1]);
      var prev := Best(t, ma, mb, m, b, used, n - 1);
      if prev >= 0 {
        DistSqInvariant(t, g, h, ma, mb, m, b[prev]);
      }
    }
  }

  lemma {:induction false} PartnersInvariant(t: Trig, g: Motion, h: Motion, ma: Minutia, mb: Minutia,
                                             a: seq<Minutia>, b: seq<Minutia>, n: nat)
    requires TrigLaws(t) && n <= |a|
    ensures Partners(t, MoveOne(t, g, ma), MoveOne(t, h, mb), Move(t, g, a), Move(t, h, b), n) == Partners(t, ma, mb, a, b, n)
  {
    if n > 0 {
      PartnersInvariant(t, g, h, ma, mb, a, b, n - 1);
      BestInvariant(t, g, h, ma, mb, a[n - 1], b, Partners(t, ma, mb, a, b, n - 1), |b|);
    }
  }

  lemma InliersInvariant(t: Trig, g: Motion, h: Motion, a: seq<Minutia>, b: seq<Minutia>, i: nat, j: nat)
    requires TrigLaws(t) && i < |a| && j < |b|
    ensures Inliers(t, Move(t, g, a), Move(t, h, b), i, j) == Inliers(t, a, b, i, j)
  {
    PartnersInvariant(t, g, h, a[i], b[j], a, b, |a|);
  }

  lemma {:induction false} BestInRowInvariant(t: Trig, g: Motion, h: Motion, a: seq<Minutia>, b: seq<Minutia>, i: nat, n: nat)
    requires TrigLaws(t) && i < |a| && n <= |b|
    ensures BestInRow(t, Move(t, g, a), Move(t, h, b), i, n) == BestInRow(t, a, b, i, n)
  {
    if n > 0 {
      BestInRowInvariant(t, g, h, a, b, i, n - 1);
      InliersInvariant(t, g, h, a, b, i, n - 1);
    }
  }

  lemma {:induction false} BestInliersInvariant(t: Trig, g: Motion, h: Motion, a: seq<Minutia>, b: seq<Minutia>, n: nat)
    requires TrigLaws(t) && n <= |a|
    ensures BestInliers(t, Move(t, g, a), Move(t, h, b), n) == BestInliers(t, a, b, n)
  {
    if n > 0 {
      BestInliersInvariant(t, g, h, a, b, n - 1);
      BestInRowInvariant(t, g, h, a, b, n - 1, |b|);
    }
  }

  /** Main result: the score does not change when either template is moved rigidly. */
  lemma ScoreInvariant(t: Trig, g: Motion, h: Motion, a: seq<Minutia>, b: seq<Minutia>)
    requires TrigLaws(t)
    ensures Score(t, Move(t, g, a), Move(t, h, b)) == Score(t, a, b)
  {
    BestInliersInvariant(t, g, h, a, b, |a|);
    assert Denom(Move(t, g, a), Move(t, h, b)) == Denom(a, b);
    assert Move(t, g, a) == [] <==> a == [];
    assert Move(t, h, b) == [] <==> b == [];
  }

  // ---------------------------------------------------------------- the pairing

  /** Nobody is chosen twice, and everybody chosen matches. */
  ghost predicate OneToOne(ps: seq<int>, size: nat) {
    && (forall i :: 0 <= i < |ps| ==> -1 <= ps[i] < size)
    && (forall i, j :: 0 <= i < j < |ps| && ps[j] >= 0 ==> ps[i] != ps[j])
  }

  lemma {:induction false} PartnersPair(t: Trig, ma: Minutia, mb: Minutia, a: seq<Minutia>, b: seq<Minutia>, n: nat)
    requires t.pi > 0.0 && n <= |a|
    ensures var ps := Partners(t, ma, mb, a, b, n);
      && OneToOne(ps, |b|)
      && forall i :: 0 <= i < n && ps[i] >= 0 ==> Matches(t, ma, mb, a[i], b[ps[i]])
  {
    if n > 0 {
      PartnersPair(t, ma, mb, a, b, n - 1);
    }
  }

  ghost function Chosen(ps: seq<int>): set<int> { set i | 0 <= i < |ps| && ps[i] >= 0 :: ps[i] }

  lemma {:induction false} CountIsChosen(ps: seq<int>, size: nat)
    requires OneToOne(ps, size)
    ensures Count(ps) == |Chosen(ps)| && Count(ps) <= |ps|
  {
    if ps != [] {
      var front, last := ps[..|ps| - 1], ps[|ps| - 1];
      CountIsChosen(front, size);
      assert forall i :: 0 <= i < |front| ==> front[i] == ps[i];
      if last >= 0 {
        assert last !in Chosen(front);
        assert Chosen(ps) == Chosen(front) + {last};
      } else {
        assert Chosen(ps) == Chosen(front);
      }
    }
  }

  lemma {:induction false} SubsetOfRange(s: set<int>, size: nat)
    requires forall x :: x in s ==> 0 <= x < size
    ensures |s| <= size
  {
    if size == 0 {
      assert forall x :: x in s ==> 0 <= x < 0;
      assert s == {};
    } else {
      SubsetOfRange(s - {size - 1}, size - 1);
      if size - 1 in s {
        assert s == (s - {size - 1}) + {size - 1};
      } else {
        assert s == s - {size - 1};
      }
    }
  }

  /** No alignment pairs more minutiae than the smaller template has. */
  lemma InliersBounded(t: Trig, a: seq<Minutia>, b: seq<Minutia>, i: nat, j: nat)
    requires t.pi > 0.0 && i < |a| && j < |b|
    ensures Inliers(t, a, b, i, j) <= |a| && Inliers(t, a, b, i, j) <= |b|
  {
    var ps := Partners(t, a[i], b[j], a, b, |a|);
    PartnersPair(t, a[i], b[j], a, b, |a|);
    CountIsChosen(ps, |b|);
    SubsetOfRange(Chosen(ps), |b|);
  }

  lemma {:induction false} BestInRowBounds(t: Trig, a: seq<Minutia>, b: seq<Minutia>, i: nat, n: nat)
    requires t.pi > 0.0 && i < |a| && n <= |b|
    ensures forall j :: 0 <= j < n ==> Inliers(t, a, b, i, j) <= BestInRow(t, a, b, i, n)
    ensures BestInRow(t, a, b, i, n) > 0 ==> exists j :: 0 <= j < n && Inliers(t, a, b, i, j) == BestInRow(t, a, b, i, n)
  {
    if n > 0 {
      BestInRowBounds(t, a, b, i, n - 1);
      assert Inliers(t, a, b, i, n - 1) <= BestInRow(t, a, b, i, n);
    }
  }

  lemma {:induction false} BestInliersBounds(t: Trig, a: seq<Minutia>, b: seq<Minutia>, n: nat)
    requires t.pi > 0.0 && n <= |a|
    ensures forall i, j :: 0 <= i < n && 0 <= j < |b| ==> Inliers(t, a, b, i, j) <= BestInliers(t, a, b, n)
    ensures BestInliers(t, a, b, n) > 0 ==> exists i, j :: 0 <= i < n && 0 <= j < |b| && Inliers(t, a, b, i, j) == BestInliers(t, a, b, n)
  {
    if n > 0 {
      BestInliersBounds(t, a, b, n - 1);
      BestInRowBounds(t, a, b, n - 1, |b|);
    }
  }

  /** How many minutiae of a find a partner in b once a[i] is laid on b[j]. */
  ghost function Pairs(t: Trig, a: seq<Minutia>, b: seq<Minutia>, i: nat, j: nat): nat
    requires t.pi > 0.0 && i < |a| && j < |b|
  {
    |set k | 0 <= k < |a| && Partners(t, a[i], b[j], a, b, |a|)[k] >= 0|
  }

  lemma {:induction false} CountIsPlaces(ps: seq<int>)
    ensures Count(ps) == |set k | 0 <= k < |ps| && ps[k] >= 0|
  {
    if ps != [] {
      var n := |ps| - 1;
      CountIsPlaces(ps[..n]);
      var before, all := set k | 0 <= k < n && ps[..n][k] >= 0, set k | 0 <= k < |ps| && ps[k] >= 0;
      assert all == if ps[n] >= 0 then before + {n} else before;
    }
  }

  lemma InliersArePairs(t: Trig, a: seq<Minutia>, b: seq<Minutia>, i: nat, j: nat)
    requires t.pi > 0.0 && i < |a| && j < |b|
    ensures Inliers(t, a, b, i, j) == if a[i].kind == b[j].kind then Pairs(t, a, b, i, j) else 0
  {
    var ps := Partners(t, a[i], b[j], a, b, |a|);
    CountIsPlaces(ps);
    assert (set k | 0 <= k < |ps| && ps[k] >= 0) == set k | 0 <= k < |a| && ps[k] >= 0;
  }

  /** The score times both sizes together is twice the largest number of pairs that laying a
      minutia on one of its own kind finds: the best overlap over the mean size. It lies in
      [0,1] before the clamp, so the clamp never acts. */
  lemma ScoreIsBestOverlap(t: Trig, a: seq<Minutia>, b: seq<Minutia>) returns (best: nat)
    requires t.pi > 0.0 && a != [] && b != []
    ensures Score(t, a, b) * (|a| + |b|) as real == 2.0 * best as real && 0.0 <= Score(t, a, b) <= 1.0
    ensures best <= |a| && best <= |b|
    ensures forall i, j :: 0 <= i < |a| && 0 <= j < |b| && a[i].kind == b[j].kind ==> Pairs(t, a, b, i, j) <= best
    ensures best > 0 ==> exists i, j :: 0 <= i < |a| && 0 <= j < |b| && a[i].kind == b[j].kind && Pairs(t, a, b, i, j) == best
  {
    best := BestInliers(t, a, b, |a|);
    ScoreIsRatio(t, a, b);
    ScoreTimes(t, a, b, best);
    hide *;
    forall i, j | 0 <= i < |a| && 0 <= j < |b| && a[i].kind == b[j].kind ensures Pairs(t, a, b, i, j) <= best {
      InliersArePairs(t, a, b, i, j);
    }
    if best > 0 {
      var i, j :| 0 <= i < |a| && 0 <= j < |b| && Inliers(t, a, b, i, j) == best;
      InliersArePairs(t, a, b, i, j);
      assert a[i].kind == b[j].kind;
    }
  }

  lemma ScoreTimes(t: Trig, a: seq<Minutia>, b: seq<Minutia>, best: nat)
    requires t.pi > 0.0 && a != [] && b != [] && Score(t, a, b) == best as real / Denom(a, b)
    ensures Score(t, a, b) * (|a| + |b|) as real == 2.0 * best as real
  {
    var score := Score(t, a, b);
    hide Score;
    RatioTimes(best, |a| + |b|);
  }

  lemma RatioTimes(k: nat, sizes: nat)
    requires sizes > 0
    ensures k as real / (sizes as real / 2.0) * sizes as real == 2.0 * k as real
  {
    var half := sizes as real / 2.0;
    assert k as real / half * half == k as real;
  }

  lemma ScoreIsRatio(t: Trig, a: seq<Minutia>, b: seq<Minutia>)
    requires t.pi > 0.0 && a != [] && b != []
    ensures var best := BestInliers(t, a, b, |a|);
      && Score(t, a, b) == best as real / Denom(a, b) && 0.0 <= Score(t, a, b) <= 1.0
      && best <= |a| && best <= |b|
      && (forall i, j :: 0 <= i < |a| && 0 <= j < |b| ==> Inliers(t, a, b, i, j) <= best)
      && (best > 0 ==> exists i, j :: 0 <= i < |a| && 0 <= j < |b| && Inliers(t, a, b, i, j) == best)
  {
    BestInliersBounds(t, a, b, |a|);
    var best := BestInliers(t, a, b, |a|);
    if best > 0 {
      var i, j :| 0 <= i < |a| && 0 <= j < |b| && Inliers(t, a, b, i, j) == best;
      InliersBounded(t, a, b, i, j);
    }
    RatioBounded(best, Denom(a, b));
  }

  lemma RatioBounded(k: nat, denom: real)
    requires denom > 0.0 && k as real <= denom
    ensures 0.0 <= k as real / denom <= 1.0
    ensures k as real / denom == 1.0 <==> k as real == denom
  {
  }

  /** A score of 1 means exactly that some alignment pairs every minutia of both templates. */
  lemma ScoreOneIff(t: Trig, a: seq<Minutia>, b: seq<Minutia>)
    requires t.pi > 0.0 && a != [] && b != []
    ensures Score(t, a, b) == 1.0 <==>
      (|a| == |b| && exists i, j :: 0 <= i < |a| && 0 <= j < |b| && Inliers(t, a, b, i, j) == |a|)
  {
    ScoreIsRatio(t, a, b);
    RatioBounded(BestInliers(t, a, b, |a|), Denom(a, b));
  }

  // ---------------------------------------------------------------- a template against itself

  /** No two minutiae, whatever their kinds, are in the same place. */
  ghost predicate DistinctPlaces(a: seq<Minutia>) {
    forall i, j :: 0 <= i < j < |a| ==> Pos(a[i]) != Pos(a[j])
  }

  lemma ProductSign(a: real, b: real, p: real)
    requires p == a * b && a > 0.0 && b > 0.0
    ensures p > 0.0
  {
  }

  lemma SquareSign(x: real, s: real)
    requires s == x * x
    ensures s >= 0.0 && (s == 0.0 <==> x == 0.0)
  {
    if x > 0.0 {
      ProductSign(x, x, s);
    } else if x < 0.0 {
      ProductSign(-x, -x, s);
    }
  }

  lemma NormSqSign(v: Vec)
    ensures NormSq(v) >= 0.0
    ensures NormSq(v) == 0.0 <==> v == Vec(0.0, 0.0)
  {
    SquareSign(v.x, v.x * v.x);
    SquareSign(v.y, v.y * v.y);
  }

  lemma FarIsApart(m: Minutia, k: Minutia, minDist: real)
    requires minDist > 0.0 && Far(m, k, minDist)
    ensures Pos(m) != Pos(k)
  {
    SquareSign(minDist, minDist * minDist);
  }

  lemma SpreadIsDistinct(a: seq<Minutia>, minDist: real)
    requires minDist > 0.0 && PairwiseFar(a, minDist)
    ensures DistinctPlaces(a)
  {
    forall i, j | 0 <= i < j < |a| ensures Pos(a[i]) != Pos(a[j]) {
      FarIsApart(a[j], a[i], minDist);
    }
  }

  lemma SelfPlace(t: Trig, p: Minutia, m: Minutia, other: Minutia)
    requires TrigLaws(t)
    ensures DistSq(t, p, p, m, other) == NormSq(Minus(Pos(m), Pos(other)))
  {
    ResidualForm(t, p, p, m, other);
    assert p.theta - p.theta == 0.0;
    assert Rot(1.0, 0.0, Minus(Pos(m), Pos(p))) == Minus(Pos(m), Pos(p));
  }

  lemma HalfTurn(pi: real)
    requires pi > 0.0
    ensures Mod(pi, 2.0 * pi) == pi
  {
    var half := pi / (2.0 * pi);
    assert half * (2.0 * pi) == pi;
    assert half == 0.5;
  }

  lemma SelfAngle(t: Trig, p: Minutia, m: Minutia)
    requires t.pi > 0.0
    ensures AngleDiff(t, Turned(t, p, p, m), m.theta) == 0.0
  {
    AngleDiffReduced(t, m.theta + (p.theta - p.theta), m.theta);
    HalfTurn(t.pi);
  }

  /** Under the identity alignment a minutia matches itself, at distance 0 from itself alone. */
  lemma SelfDistance(t: Trig, p: Minutia, a: seq<Minutia>, k: nat, j: nat)
    requires TrigLaws(t) && DistinctPlaces(a) && k < |a| && j < |a|
    ensures DistSq(t, p, p, a[k], a[j]) >= 0.0
    ensures DistSq(t, p, p, a[k], a[j]) == 0.0 <==> k == j
    ensures Matches(t, p, p, a[k], a[k])
  {
    hide DistSq, AngleDiff, NormSq, Turned;
    SelfPlace(t, p, a[k], a[j]);
    SelfPlace(t, p, a[k], a[k]);
    NormSqSign(Minus(Pos(a[k]), Pos(a[j])));
    NormSqSign(Minus(Pos(a[k]), Pos(a[k])));
    SelfAngle(t, p, a[k]);
  }

  /** An unused minutia picks itself. */
  lemma {:induction false} PicksItself(t: Trig, p: Minutia, a: seq<Minutia>, k: nat, used: seq<int>, n: nat)
    requires TrigLaws(t) && DistinctPlaces(a) && k < |a| && n <= |a| && k !in used
    ensures n > k ==> Best(t, p, p, a[k], a, used, n) == k
  {
    hide DistSq, Matches;
    if n > k {
      SelfDistance(t, p, a, k, n - 1);
      SelfDistance(t, p, a, k, k);
      var prev := Best(t, p, p, a[k], a, used, n - 1);
      if n - 1 > k {
        PicksItself(t, p, a, k, used, n - 1);
      } else if prev >= 0 {
        SelfDistance(t, p, a, k, prev);
      }
    }
  }

  lemma {:induction false} SelfPartners(t: Trig, p: Minutia, a: seq<Minutia>, n: nat)
    requires TrigLaws(t) && DistinctPlaces(a) && n <= |a|
    ensures Partners(t, p, p, a, a, n) == seq(n, i => i)
    ensures Count(Partners(t, p, p, a, a, n)) == n
  {
    if n > 0 {
      SelfPartners(t, p, a, n - 1);
      var ps := Partners(t, p, p, a, a, n - 1);
      assert n - 1 !in ps;
      PicksItself(t, p, a, n - 1, ps, |a|);
      assert Partners(t, p, p, a, a, n)[..n - 1] == ps;
    }
  }

  /** Main result: a nonempty suppressed template scores exactly 1 against itself, and
      against any rigidly moved copy of itself. */
  lemma MovedCopyScoresOne(t: Trig, g: Motion, h: Motion, ms: seq<Minutia>, minDist: real)
    requires TrigLaws(t) && minDist > 0.0 && Suppress(ms, minDist) != []
    ensures var a := Suppress(ms, minDist);
      Score(t, a, a) == 1.0 && Score(t, Move(t, g, a), Move(t, h, a)) == 1.0
  {
    var a := Suppress(ms, minDist);
    SuppressIsMaximal(ms, minDist);
    SpreadIsDistinct(a, minDist);
    SelfPartners(t, a[0], a, |a|);
    assert Inliers(t, a, a, 0, 0) == |a|;
    ScoreOneIff(t, a, a);
    ScoreInvariant(t, g, h, a, a);
  }
}
