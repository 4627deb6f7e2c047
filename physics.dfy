/**
 * The physics shared by both simulator variants, over exact real arithmetic:
 * the pull of one body on another, the net force on every body, the
 * semi-implicit Euler step, a run of steps and the trajectory it records.
 *
 * `Math.Sqrt` is a parameter `sqrt`. Most facts hold whatever `sqrt` is;
 * where its value matters it is required to be a square root (`IsSqrt`).
 */
module Physics {
  import opened Bodies

  // ---------------------------------------------------------------------------
  // Squares, quotients and square roots
  // ---------------------------------------------------------------------------

  lemma SquareNonnegative(d: real)
    ensures 0.0 <= Sq(d)
  {
  }

  lemma SquareQuotient(d: real)
    requires d != 0.0
    ensures Sq(d) / d == d
  {
  }

  lemma SquarePositive(d: real)
    requires d != 0.0
    ensures 0.0 < Sq(d)
  {
    SquareNonnegative(d);
    SquareQuotient(d);
  }

  lemma SquareOfNegation(d: real)
    ensures Sq(-d) == Sq(d)
  {
  }

  /** A sum of two squares is never negative, and it is positive unless both are zero. */
  lemma SumOfSquares(x: real, y: real)
    ensures 0.0 <= Sq(x) + Sq(y)
    ensures 0.0 < Sq(x) + Sq(y) || (x == 0.0 && y == 0.0)
  {
    SquareNonnegative(x);
    SquareNonnegative(y);
    if x != 0.0 {
      SquarePositive(x);
    } else if y != 0.0 {
      SquarePositive(y);
    }
  }

  lemma ZeroSquares(x: real, y: real)
    requires x == 0.0 && y == 0.0
    ensures Sq(x) + Sq(y) == 0.0
  {
  }

  /**
   * `Math.Sqrt` as the force loops see it: any function that maps zero to
   * zero. This is all the loops rely on to keep their divisions defined.
   */
  type Root = f: real -> real | f(0.0) == 0.0 witness (x: real) => x

  /** `sqrt(x)` is the square root of `x`. */
  ghost predicate SqrtAt(sqrt: real -> real, x: real) {
    0.0 <= sqrt(x) && Sq(sqrt(x)) == x
  }

  /** `sqrt` is a square root on the non-negative reals. */
  ghost predicate IsSqrt(sqrt: real -> real) {
    forall x: real :: 0.0 <= x ==> SqrtAt(sqrt, x)
  }

  /** A square root is positive exactly on the positive reals. */
  lemma RootPositive(sqrt: Root, x: real)
    requires IsSqrt(sqrt) && 0.0 <= x
    ensures 0.0 <= sqrt(x) && (0.0 < sqrt(x) <==> 0.0 < x)
  {
    assert SqrtAt(sqrt, x);
  }

  lemma RootSquared(sqrt: Root, x: real)
    requires IsSqrt(sqrt) && 0.0 <= x
    ensures Sq(sqrt(x)) == x
  {
    assert SqrtAt(sqrt, x);
  }

  /** The square root of `x*x + y*y` is zero exactly when `x` and `y` are. */
  lemma RootOfSquares(sqrt: Root, x: real, y: real)
    requires IsSqrt(sqrt)
    ensures sqrt(Sq(x) + Sq(y)) == 0.0 <==> x == 0.0 && y == 0.0
  {
    SumOfSquares(x, y);
    RootPositive(sqrt, Sq(x) + Sq(y));
    if x == 0.0 && y == 0.0 {
      ZeroSquares(x, y);
    }
  }

  lemma SqrtOfOne(sqrt: Root)
    requires IsSqrt(sqrt)
    ensures sqrt(1.0) == 1.0
  {
    var r := sqrt(1.0);
    RootSquared(sqrt, 1.0);
    RootPositive(sqrt, 1.0);
    assert (r - 1.0) * (r + 1.0) == Sq(r) - 1.0;
    ZeroFactor(r - 1.0, r + 1.0);
  }

  lemma ZeroFactor(a: real, b: real)
    requires a * b == 0.0 && b != 0.0
    ensures a == 0.0
  {
    assert a == a * b / b;
  }

  lemma DivAssoc(f: real, x: real, r: real)
    requires r != 0.0
    ensures f * x / r == f * (x / r)
  {
  }

  lemma NegatedQuotient(f: real, x: real, r: real)
    requires r != 0.0
    ensures f * -x / r == -(f * x / r)
  {
  }

  lemma Reciprocal(x: real, r: real)
    requires r != 0.0
    ensures x / r == (1.0 / r) * x
  {
  }

  lemma SquareOfQuotient(x: real, r: real)
    requires r != 0.0
    ensures Sq(x / r) * Sq(r) == Sq(x)
  {
  }

  lemma QuotientOfProduct(a: real, b: real, c: real)
    requires c != 0.0 && a * c == b
    ensures a == b / c
  {
  }

  lemma AddQuotients(a: real, b: real, c: real)
    requires c != 0.0
    ensures a / c + b / c == (a + b) / c
  {
  }

  lemma SelfQuotient(c: real)
    requires c != 0.0
    ensures c / c == 1.0
  {
  }

  /** A vector divided by its length has length one. */
  lemma UnitLength(x: real, y: real, r: real)
    requires r != 0.0 && Sq(r) == Sq(x) + Sq(y)
    ensures Sq(x / r) + Sq(y / r) == 1.0
  {
    SquarePositive(r);
    SquareOfQuotient(x, r);
    QuotientOfProduct(Sq(x / r), Sq(x), Sq(r));
    SquareOfQuotient(y, r);
    QuotientOfProduct(Sq(y / r), Sq(y), Sq(r));
    AddQuotients(Sq(x), Sq(y), Sq(r));
    SelfQuotient(Sq(r));
  }

  // ---------------------------------------------------------------------------
  // The pull of one body on another
  // ---------------------------------------------------------------------------

  /** Which of the two simulators' force formulas is meant. */
  datatype Variant = Calcules | Legacy

  /** The constants of a simulator: its formula, `G`, and its square root. */
  datatype Gravity = Gravity(variant: Variant, G: real, sqrt: Root)

  /**
   * The pull of body `b` on body `a` in the `Calcules` simulator: zero when
   * `dist == 0`, otherwise `G*ma*mb/distSq` along `(dx/dist, dy/dist)`.
   * Bodies at one point exert nothing on each other.
   */
  function CalculesPull(G: real, sqrt: Root, a: BodyState, b: BodyState): (p: Vec2)
    ensures a.position == b.position ==> p == Zero
  {
    var dx := b.position.x - a.position.x;
    var dy := b.position.y - a.position.y;
    var distSq := Sq(dx) + Sq(dy);
    var dist := sqrt(distSq);
    if dist == 0.0 then Zero
    else
      var f := G * a.mass * b.mass / distSq;
      Vec2(f * dx / dist, f * dy / dist)
  }

  /**
   * The pull of body `b` on body `a` in the older simulator: zero when
   * `distance == 0`, otherwise `G*ma*mb/(distance*distance)` times
   * `(dx/distance, dy/distance)`. As in the newer formula, bodies at one
   * point exert nothing on each other.
   */
  function LegacyPull(G: real, sqrt: Root, a: BodyState, b: BodyState): (p: Vec2)
    ensures a.position == b.position ==> p == Zero
  {
    var dx := b.position.x - a.position.x;
    var dy := b.position.y - a.position.y;
    var distance := sqrt(Sq(dx) + Sq(dy));
    if distance == 0.0 then Zero
    else
      SquarePositive(distance);
      var force := G * a.mass * b.mass / Sq(distance);
      Vec2(force * (dx / distance), force * (dy / distance))
  }

  function PairForce(g: Gravity, a: BodyState, b: BodyState): Vec2 {
    match g.variant
    case Calcules => CalculesPull(g.G, g.sqrt, a, b)
    case Legacy => LegacyPull(g.G, g.sqrt, a, b)
  }

  /** What body `j` adds to the force on body `i`: nothing when `i == j`. */
  function Contribution(g: Gravity, s: seq<BodyState>, i: nat, j: nat): Vec2
    requires i < |s| && j < |s|
  {
    if i == j then Zero else PairForce(g, s[i], s[j])
  }

  /** The table of contributions: row `i`, column `j` is what `j` adds to body `i`. */
  function Pairs(g: Gravity, s: seq<BodyState>): (M: seq<seq<Vec2>>)
    ensures |M| == |s|
    ensures forall i :: 0 <= i < |s| ==> |M[i]| == |s|
  {
    seq(|s|, i requires 0 <= i < |s| => seq(|s|, j requires 0 <= j < |s| => Contribution(g, s, i, j)))
  }

  /** The first `n` entries of a row added up, left to right. */
  function RowSum(row: seq<Vec2>, n: nat): Vec2
    requires n <= |row|
  {
    if n == 0 then Zero else Add(RowSum(row, n - 1), row[n - 1])
  }

  /** Every row of a square table summed over all its entries. */
  function RowSums(M: seq<seq<Vec2>>): (r: seq<Vec2>)
    requires forall i :: 0 <= i < |M| ==> |M[i]| == |M|
    ensures |r| == |M|
  {
    seq(|M|, i requires 0 <= i < |M| => RowSum(M[i], |M|))
  }

  /** The net force on every body, indexed like the bodies, each summed in body order. */
  function Forces(g: Gravity, s: seq<BodyState>): (fs: seq<Vec2>)
    ensures |fs| == |s|
  {
    RowSums(Pairs(g, s))
  }

  ghost predicate NonzeroMasses(s: seq<BodyState>) {
    forall k :: 0 <= k < |s| ==> s[k].mass != 0.0
  }

  /** `t` holds the same bodies as `s`: same count, order, names and masses. */
  ghost predicate SameBodies(s: seq<BodyState>, t: seq<BodyState>) {
    |t| == |s| && forall k :: 0 <= k < |s| ==> t[k].name == s[k].name && t[k].mass == s[k].mass
  }

  /**
   * One body's semi-implicit Euler update under force `f`: the velocity
   * first, then the position with the new velocity.
   */
  function Advance(b: BodyState, f: Vec2, dt: real): (r: BodyState)
    requires b.mass != 0.0
    ensures r.name == b.name && r.mass == b.mass
    ensures r.position == Vec2(b.position.x + r.velocity.x * dt, b.position.y + r.velocity.y * dt)
  {
    var v := Vec2(b.velocity.x + f.x / b.mass * dt, b.velocity.y + f.y / b.mass * dt);
    b.(velocity := v, position := Vec2(b.position.x + v.x * dt, b.position.y + v.y * dt))
  }

  function AdvanceAll(s: seq<BodyState>, fs: seq<Vec2>, dt: real): seq<BodyState>
    requires |fs| == |s| && NonzeroMasses(s)
  {
    seq(|s|, k requires 0 <= k < |s| => Advance(s[k], fs[k], dt))
  }

  /** One step: every force from the state before the step, then every update. */
  function Step(g: Gravity, s: seq<BodyState>, dt: real): (r: seq<BodyState>)
    requires NonzeroMasses(s)
    ensures |r| == |s| && NonzeroMasses(r)
  {
    AdvanceAll(s, Forces(g, s), dt)
  }

  /** The state after `n` steps: one step, then the remaining `n - 1`. */
  function Run(g: Gravity, s: seq<BodyState>, dt: real, n: nat): (r: seq<BodyState>)
    requires NonzeroMasses(s)
    ensures |r| == |s| && NonzeroMasses(r)
    decreases n
  {
    if n == 0 then s else Run(g, Step(g, s, dt), dt, n - 1)
  }

  /** Step `n + 1` is one step from the state after step `n`. */
  lemma {:induction false} RunLastStep(g: Gravity, s: seq<BodyState>, dt: real, n: nat)
    requires NonzeroMasses(s)
    ensures Run(g, s, dt, n + 1) == Step(g, Run(g, s, dt, n), dt)
    decreases n
  {
    if n > 0 {
      RunLastStep(g, Step(g, s, dt), dt, n - 1);
    }
  }

  /** A step keeps the bodies, their order, their names and their masses. */
  lemma StepKeepsBodies(g: Gravity, s: seq<BodyState>, dt: real)
    requires NonzeroMasses(s)
    ensures SameBodies(s, Step(g, s, dt))
  {
  }

  lemma {:induction false} RunKeepsBodies(g: Gravity, s: seq<BodyState>, dt: real, n: nat)
    requires NonzeroMasses(s)
    ensures SameBodies(s, Run(g, s, dt, n))
  {
    if n > 0 {
      RunKeepsBodies(g, s, dt, n - 1);
      StepKeepsBodies(g, Run(g, s, dt, n - 1), dt);
      RunLastStep(g, s, dt, n - 1);
    }
  }

  /**
   * The trajectory body `k` records over `n` steps: one position per step,
   * in step order (see `TrajectoryEntry`).
   */
  function Trajectory(g: Gravity, s: seq<BodyState>, dt: real, n: nat, k: nat): (t: seq<Vec2>)
    requires NonzeroMasses(s) && k < |s|
    ensures |t| == n
  {
    if n == 0 then [] else Trajectory(g, s, dt, n - 1, k) + [Run(g, s, dt, n)[k].position]
  }

  /** Entry `m` of a trajectory is the position after step `m + 1`. */
  lemma {:induction false} TrajectoryEntry(g: Gravity, s: seq<BodyState>, dt: real, n: nat, k: nat, m: nat)
    requires NonzeroMasses(s) && k < |s| && m < n
    ensures Trajectory(g, s, dt, n, k)[m] == Run(g, s, dt, m + 1)[k].position
  {
    var t := Trajectory(g, s, dt, n - 1, k);
    assert Trajectory(g, s, dt, n, k) == t + [Run(g, s, dt, n)[k].position];
    if m < n - 1 {
      TrajectoryEntry(g, s, dt, n - 1, k, m);
      assert (t + [Run(g, s, dt, n)[k].position])[m] == t[m];
    }
  }

  /** Sum of a sequence of vectors, left to right. */
  function Sum(fs: seq<Vec2>): Vec2 {
    if |fs| == 0 then Zero else Add(Sum(fs[..|fs| - 1]), fs[|fs| - 1])
  }

  /** Total momentum: the sum of mass times velocity. */
  function Momentum(s: seq<BodyState>): Vec2 {
    if |s| == 0 then Zero
    else Add(Momentum(s[..|s| - 1]), Scale(s[|s| - 1].mass, s[|s| - 1].velocity))
  }

  // ---------------------------------------------------------------------------
  // Properties of a single pair
  // ---------------------------------------------------------------------------

  /**
   * For a square root, the skip test `dist == 0` holds exactly when the two
   * bodies are at the same point.
   */
  lemma ZeroDistanceSkip(sqrt: Root, a: BodyState, b: BodyState)
    requires IsSqrt(sqrt)
    ensures sqrt(Norm2(Sub(b.position, a.position))) == 0.0 <==> a.position == b.position
  {
    RootOfSquares(sqrt, b.position.x - a.position.x, b.position.y - a.position.y);
  }

  /** Two bodies at the same point exert no force on each other, in either formula. */
  lemma CoincidentPairSkipped(g: Gravity, a: BodyState, b: BodyState)
    requires a.position == b.position
    ensures PairForce(g, a, b) == Zero
  {
    ZeroSquares(b.position.x - a.position.x, b.position.y - a.position.y);
  }

  /** Two bodies at distinct points are at a positive distance whose square is `distSq`. */
  lemma PairDistance(sqrt: Root, a: BodyState, b: BodyState)
    requires IsSqrt(sqrt) && a.position != b.position
    ensures var dist := sqrt(Norm2(Sub(b.position, a.position)));
            0.0 < dist && Sq(dist) == Norm2(Sub(b.position, a.position))
  {
    var d := Sub(b.position, a.position);
    SumOfSquares(d.x, d.y);
    ZeroDistanceSkip(sqrt, a, b);
    RootPositive(sqrt, Norm2(d));
    RootSquared(sqrt, Norm2(d));
  }

  /**
   * In the `Calcules` formula the pull of `b` on `a`, at distinct points,
   * is `G*ma*mb/distSq` times `u = (dx/dist, dy/dist)`: a unit vector which
   * is a positive multiple of the displacement from `a` to `b`.
   */
  lemma PairForceLaw(G: real, sqrt: Root, a: BodyState, b: BodyState)
    requires IsSqrt(sqrt) && a.position != b.position
    ensures 0.0 < sqrt(Norm2(Sub(b.position, a.position)))
    ensures var d := Sub(b.position, a.position);
            var dist := sqrt(Norm2(d));
            var u := Vec2(d.x / dist, d.y / dist);
            && CalculesPull(G, sqrt, a, b) == Scale(G * a.mass * b.mass / Norm2(d), u)
            && u == Scale(1.0 / dist, d)
            && Norm2(u) == 1.0
  {
    PairDistance(sqrt, a, b);
    var d := Sub(b.position, a.position);
    var dist := sqrt(Norm2(d));
    var f := G * a.mass * b.mass / Norm2(d);
    DivAssoc(f, d.x, dist);
    DivAssoc(f, d.y, dist);
    Reciprocal(d.x, dist);
    Reciprocal(d.y, dist);
    UnitLength(d.x, d.y, dist);
  }

  /**
   * For any `sqrt`, both formulas pull along the line between the bodies:
   * the pull is parallel to the displacement `(dx, dy)` from `a` to `b`.
   */
  lemma PullsParallel(G: real, sqrt: Root, a: BodyState, b: BodyState)
    ensures var d := Sub(b.position, a.position);
            var p := CalculesPull(G, sqrt, a, b);
            p.x * d.y == p.y * d.x
    ensures var d := Sub(b.position, a.position);
            var p := LegacyPull(G, sqrt, a, b);
            p.x * d.y == p.y * d.x
  {
  }

  /** Over the reals the two formulas agree once `sqrt` is a square root. */
  lemma LegacyMatchesCalcules(G: real, sqrt: Root, a: BodyState, b: BodyState)
    requires IsSqrt(sqrt)
    ensures LegacyPull(G, sqrt, a, b) == CalculesPull(G, sqrt, a, b)
  {
    var dx := b.position.x - a.position.x;
    var dy := b.position.y - a.position.y;
    var distSq := Sq(dx) + Sq(dy);
    var dist := sqrt(distSq);
    SumOfSquares(dx, dy);
    RootPositive(sqrt, distSq);
    if dist != 0.0 {
      RootSquared(sqrt, distSq);
      var f := G * a.mass * b.mass / distSq;
      DivAssoc(f, dx, dist);
      DivAssoc(f, dy, dist);
    }
  }

  lemma CalculesAntisymmetric(G: real, sqrt: Root, a: BodyState, b: BodyState)
    ensures CalculesPull(G, sqrt, a, b) == Neg(CalculesPull(G, sqrt, b, a))
  {
    var dx := b.position.x - a.position.x;
    var dy := b.position.y - a.position.y;
    SquareOfNegation(dx);
    SquareOfNegation(dy);
    assert a.position.x - b.position.x == -dx && a.position.y - b.position.y == -dy;
    var distSq := Sq(dx) + Sq(dy);
    var dist := sqrt(distSq);
    assert sqrt(Sq(-dx) + Sq(-dy)) == dist;
    if dist != 0.0 {
      var f := G * a.mass * b.mass / distSq;
      assert G * b.mass * a.mass / distSq == f;
      NegatedQuotient(f, dx, dist);
      NegatedQuotient(f, dy, dist);
      assert CalculesPull(G, sqrt, a, b) == Vec2(f * dx / dist, f * dy / dist);
      assert CalculesPull(G, sqrt, b, a) == Vec2(f * -dx / dist, f * -dy / dist);
    } else {
      assert CalculesPull(G, sqrt, b, a) == Zero;
    }
  }

  lemma LegacyAntisymmetric(G: real, sqrt: Root, a: BodyState, b: BodyState)
    ensures LegacyPull(G, sqrt, a, b) == Neg(LegacyPull(G, sqrt, b, a))
  {
    var dx := b.position.x - a.position.x;
    var dy := b.position.y - a.position.y;
    SquareOfNegation(dx);
    SquareOfNegation(dy);
    assert a.position.x - b.position.x == -dx && a.position.y - b.position.y == -dy;
    var distance := sqrt(Sq(dx) + Sq(dy));
    if distance != 0.0 {
      SquarePositive(distance);
      assert G * b.mass * a.mass == G * a.mass * b.mass;
      var force := G * a.mass * b.mass / Sq(distance);
      assert force * (-dx / distance) == -(force * (dx / distance));
      assert force * (-dy / distance) == -(force * (dy / distance));
    }
  }

  /** Newton's third law: the pull of `b` on `a` is minus the pull of `a` on `b`. */
  lemma PairForceAntisymmetric(g: Gravity, a: BodyState, b: BodyState)
    ensures PairForce(g, a, b) == Neg(PairForce(g, b, a))
  {
    match g.variant
    case Calcules => CalculesAntisymmetric(g.G, g.sqrt, a, b);
    case Legacy => LegacyAntisymmetric(g.G, g.sqrt, a, b);
  }

  // ---------------------------------------------------------------------------
  // The forces of one pass sum to zero
  // ---------------------------------------------------------------------------

  ghost predicate Square(M: seq<seq<Vec2>>) {
    forall i :: 0 <= i < |M| ==> |M[i]| == |M|
  }

  /** A square table whose entry `(i, j)` is minus its entry `(j, i)`. */
  ghost predicate Antisymmetric(M: seq<seq<Vec2>>) {
    Square(M) && forall i, j :: 0 <= i < |M| && 0 <= j < |M| ==> M[i][j] == Neg(M[j][i])
  }

  lemma PairsAntisymmetric(g: Gravity, s: seq<BodyState>)
    ensures Antisymmetric(Pairs(g, s))
  {
    var M := Pairs(g, s);
    forall i, j | 0 <= i < |M| && 0 <= j < |M|
      ensures M[i][j] == Neg(M[j][i])
    {
      if i != j {
        PairForceAntisymmetric(g, s[i], s[j]);
      }
    }
  }

  /** The first `m` entries of column `j` added up, top to bottom. */
  function ColumnSum(M: seq<seq<Vec2>>, j: nat, m: nat): Vec2
    requires Square(M) && j < |M| && m <= |M|
  {
    if m == 0 then Zero else Add(ColumnSum(M, j, m - 1), M[m - 1][j])
  }

  /** The first `m` rows, each summed over its first `n` entries, added up. */
  function RowsTotal(M: seq<seq<Vec2>>, m: nat, n: nat): Vec2
    requires Square(M) && m <= |M| && n <= |M|
  {
    if m == 0 then Zero else Add(RowsTotal(M, m - 1, n), RowSum(M[m - 1], n))
  }

  lemma {:induction false} RowIsNegatedColumn(M: seq<seq<Vec2>>, i: nat, m: nat)
    requires Antisymmetric(M) && i < |M| && m <= |M|
    ensures RowSum(M[i], m) == Neg(ColumnSum(M, i, m))
  {
    if m > 0 {
      RowIsNegatedColumn(M, i, m - 1);
      assert M[i][m - 1] == Neg(M[m - 1][i]);
    }
  }

  lemma {:induction false} RowsTotalExtend(M: seq<seq<Vec2>>, m: nat, n: nat)
    requires Square(M) && m <= |M| && n < |M|
    ensures RowsTotal(M, m, n + 1) == Add(RowsTotal(M, m, n), ColumnSum(M, n, m))
  {
    if m > 0 {
      RowsTotalExtend(M, m - 1, n);
    }
  }

  lemma {:induction false} RowsTotalSquareZero(M: seq<seq<Vec2>>, n: nat)
    requires Antisymmetric(M) && n <= |M|
    ensures RowsTotal(M, n, n) == Zero
  {
    if n > 0 {
      var k := n - 1;
      var c := ColumnSum(M, k, k);
      RowsTotalSquareZero(M, k);
      RowsTotalExtend(M, k, k);
      assert RowsTotal(M, k, n) == Add(Zero, c);
      RowIsNegatedColumn(M, k, k);
      assert M[k][k] == Zero by {
        assert M[k][k] == Neg(M[k][k]);
      }
      var r := RowSum(M[k], n);
      assert r == Add(Neg(c), Zero);
      assert RowsTotal(M, n, n) == Add(Add(Zero, c), r);
    }
  }

  lemma {:induction false} SumOfRowsPrefix(M: seq<seq<Vec2>>, m: nat)
    requires Square(M) && m <= |M|
    ensures Sum(RowSums(M)[..m]) == RowsTotal(M, m, |M|)
  {
    if m > 0 {
      SumOfRowsPrefix(M, m - 1);
      assert RowSums(M)[..m][..m - 1] == RowSums(M)[..m - 1];
    }
  }

  /** The rows of an antisymmetric table cancel: their sums add up to zero. */
  lemma RowSumsCancel(M: seq<seq<Vec2>>)
    requires Antisymmetric(M)
    ensures Sum(RowSums(M)) == Zero
  {
    SumOfRowsPrefix(M, |M|);
    assert RowSums(M)[..|M|] == RowSums(M);
    RowsTotalSquareZero(M, |M|);
  }

  /** Over exact arithmetic the forces of one pass cancel: their sum is zero. */
  lemma ForcesSumToZero(g: Gravity, s: seq<BodyState>)
    ensures Sum(Forces(g, s)) == Zero
  {
    PairsAntisymmetric(g, s);
    RowSumsCancel(Pairs(g, s));
  }

  // ---------------------------------------------------------------------------
  // Momentum
  // ---------------------------------------------------------------------------

  lemma AdvanceMomentum(b: BodyState, f: Vec2, dt: real)
    requires b.mass != 0.0
    ensures Advance(b, f, dt).mass == b.mass
    ensures Scale(b.mass, Advance(b, f, dt).velocity) == Add(Scale(b.mass, b.velocity), Scale(dt, f))
  {
    var m := b.mass;
    assert m * (b.velocity.x + f.x / m * dt) == m * b.velocity.x + dt * f.x;
    assert m * (b.velocity.y + f.y / m * dt) == m * b.velocity.y + dt * f.y;
  }

  /** Every vector of a sequence scaled by `k`. */
  function ScaleAll(k: real, fs: seq<Vec2>): (r: seq<Vec2>)
    ensures |r| == |fs|
  {
    seq(|fs|, i requires 0 <= i < |fs| => Scale(k, fs[i]))
  }

  lemma {:induction false} SumScaleAll(k: real, fs: seq<Vec2>)
    ensures Sum(ScaleAll(k, fs)) == Scale(k, Sum(fs))
  {
    if |fs| > 0 {
      var m := |fs| - 1;
      assert ScaleAll(k, fs)[..m] == ScaleAll(k, fs[..m]);
      SumScaleAll(k, fs[..m]);
      var a := Sum(fs[..m]);
      var b := fs[m];
      assert k * (a.x + b.x) == k * a.x + k * b.x;
      assert k * (a.y + b.y) == k * a.y + k * b.y;
    }
  }

  /**
   * If every body's momentum changes by its own impulse, the total momentum
   * changes by the sum of the impulses.
   */
  lemma {:induction false} MomentumShift(s: seq<BodyState>, t: seq<BodyState>, imp: seq<Vec2>)
    requires |t| == |s| && |imp| == |s|
    requires forall k :: 0 <= k < |s| ==>
      Scale(t[k].mass, t[k].velocity) == Add(Scale(s[k].mass, s[k].velocity), imp[k])
    ensures Momentum(t) == Add(Momentum(s), Sum(imp))
  {
    if |s| > 0 {
      var m := |s| - 1;
      MomentumShift(s[..m], t[..m], imp[..m]);
    }
  }

  lemma AdvanceAllMomentum(s: seq<BodyState>, fs: seq<Vec2>, dt: real)
    requires |fs| == |s| && NonzeroMasses(s)
    ensures Momentum(AdvanceAll(s, fs, dt)) == Add(Momentum(s), Scale(dt, Sum(fs)))
  {
    var t := AdvanceAll(s, fs, dt);
    forall k | 0 <= k < |s|
      ensures Scale(t[k].mass, t[k].velocity) == Add(Scale(s[k].mass, s[k].velocity), ScaleAll(dt, fs)[k])
    {
      AdvanceMomentum(s[k], fs[k], dt);
    }
    MomentumShift(s, t, ScaleAll(dt, fs));
    SumScaleAll(dt, fs);
  }

  /** Over exact arithmetic one step keeps the total momentum. */
  lemma StepConservesMomentum(g: Gravity, s: seq<BodyState>, dt: real)
    requires NonzeroMasses(s)
    ensures Momentum(Step(g, s, dt)) == Momentum(s)
  {
    AdvanceAllMomentum(s, Forces(g, s), dt);
    ForcesSumToZero(g, s);
  }

  /** Over exact arithmetic a whole run keeps the total momentum. */
  lemma {:induction false} RunConservesMomentum(g: Gravity, s: seq<BodyState>, dt: real, n: nat)
    requires NonzeroMasses(s)
    ensures Momentum(Run(g, s, dt, n)) == Momentum(s)
  {
    if n > 0 {
      RunConservesMomentum(g, s, dt, n - 1);
      StepConservesMomentum(g, Run(g, s, dt, n - 1), dt);
      RunLastStep(g, s, dt, n - 1);
    }
  }

  // ---------------------------------------------------------------------------
  // The two formulas give the same run
  // ---------------------------------------------------------------------------

  lemma ForcesAgree(G: real, sqrt: Root, s: seq<BodyState>)
    requires IsSqrt(sqrt)
    ensures Forces(Gravity(Legacy, G, sqrt), s) == Forces(Gravity(Calcules, G, sqrt), s)
  {
    var ML := Pairs(Gravity(Legacy, G, sqrt), s);
    var MC := Pairs(Gravity(Calcules, G, sqrt), s);
    forall i, j | 0 <= i < |s| && 0 <= j < |s|
      ensures ML[i][j] == MC[i][j]
    {
      if i != j {
        LegacyMatchesCalcules(G, sqrt, s[i], s[j]);
      }
    }
    forall i | 0 <= i < |s|
      ensures ML[i] == MC[i]
    {
    }
  }

  /** Both simulators, given the same bodies and a square root, make the same run. */
  lemma {:induction false} RunsAgree(G: real, sqrt: Root, s: seq<BodyState>, dt: real, n: nat)
    requires IsSqrt(sqrt) && NonzeroMasses(s)
    ensures Run(Gravity(Legacy, G, sqrt), s, dt, n) == Run(Gravity(Calcules, G, sqrt), s, dt, n)
  {
    if n > 0 {
      RunsAgree(G, sqrt, s, dt, n - 1);
      ForcesAgree(G, sqrt, Run(Gravity(Calcules, G, sqrt), s, dt, n - 1));
      RunLastStep(Gravity(Legacy, G, sqrt), s, dt, n - 1);
      RunLastStep(Gravity(Calcules, G, sqrt), s, dt, n - 1);
    }
  }

  // ---------------------------------------------------------------------------
  // A lone body
  // ---------------------------------------------------------------------------

  lemma LoneBodyFeelsNoForce(g: Gravity, s: seq<BodyState>)
    requires |s| == 1
    ensures Forces(g, s) == [Zero]
  {
    var M := Pairs(g, s);
    assert M[0][0] == Zero;
    assert RowSum(M[0], 1) == Add(RowSum(M[0], 0), M[0][0]);
    assert Forces(g, s)[0] == Zero;
  }

  /** Under no force a body keeps its velocity and moves by `velocity * dt`. */
  lemma Coast(b: BodyState, dt: real)
    requires b.mass != 0.0
    ensures Advance(b, Zero, dt) == b.(position := Add(b.position, Scale(dt, b.velocity)))
  {
    assert 0.0 / b.mass * dt == 0.0;
    assert b.velocity.x * dt == dt * b.velocity.x;
    assert b.velocity.y * dt == dt * b.velocity.y;
  }

  /** Where a point starting at `p` is after `n` moves by `velocity * dt`. */
  function Drift(p: Vec2, v: Vec2, dt: real, n: nat): Vec2 {
    if n == 0 then p else Add(Drift(p, v, dt, n - 1), Scale(dt, v))
  }

  /** `n` moves by `v * dt` add up to one move by `v * (n * dt)`. */
  lemma {:induction false} DriftClosedForm(p: Vec2, v: Vec2, dt: real, n: nat)
    ensures Drift(p, v, dt, n) == Add(p, Scale((n as real) * dt, v))
  {
    if n > 0 {
      DriftClosedForm(p, v, dt, n - 1);
      var k := (n - 1) as real;
      assert (n as real) * dt * v.x == k * dt * v.x + dt * v.x;
      assert (n as real) * dt * v.y == k * dt * v.y + dt * v.y;
    }
  }

  /** A step of a lone body keeps its velocity and moves it by `velocity * dt`. */
  lemma LoneStep(g: Gravity, r: seq<BodyState>, dt: real)
    requires |r| == 1 && NonzeroMasses(r)
    ensures |Step(g, r, dt)| == 1
    ensures Step(g, r, dt)[0].velocity == r[0].velocity
    ensures Step(g, r, dt)[0].position == Add(r[0].position, Scale(dt, r[0].velocity))
  {
    LoneBodyFeelsNoForce(g, r);
    Coast(r[0], dt);
  }

  /** A lone body keeps its velocity and moves by `velocity * dt` every step. */
  lemma {:induction false} LoneBodyDrifts(g: Gravity, s: seq<BodyState>, dt: real, n: nat)
    requires |s| == 1 && NonzeroMasses(s)
    ensures |Run(g, s, dt, n)| == 1
    ensures Run(g, s, dt, n)[0].velocity == s[0].velocity
    ensures Run(g, s, dt, n)[0].position == Drift(s[0].position, s[0].velocity, dt, n)
  {
    if n > 0 {
      LoneBodyDrifts(g, s, dt, n - 1);
      var r := Run(g, s, dt, n - 1);
      LoneStep(g, r, dt);
      RunLastStep(g, s, dt, n - 1);
    }
  }

  /** After `n` steps a lone body is at `position + velocity * (n * dt)`. */
  lemma LoneBodyPosition(g: Gravity, s: seq<BodyState>, dt: real, n: nat)
    requires |s| == 1 && NonzeroMasses(s)
    ensures Run(g, s, dt, n)[0].position == Add(s[0].position, Scale((n as real) * dt, s[0].velocity))
  {
    LoneBodyDrifts(g, s, dt, n);
    DriftClosedForm(s[0].position, s[0].velocity, dt, n);
  }

  /** Body A of the two-body scenario: unit mass at rest at the origin. */
  const BodyA := BodyState("A", 1.0, Zero, Zero)

  /** Body B of the two-body scenario: unit mass at rest at `(1, 0)`. */
  const BodyB := BodyState("B", 1.0, Vec2(1.0, 0.0), Zero)

  /** The two pulls of the scenario with `G = 1`: unit force, each toward the other. */
  lemma ScenarioPulls(g: Gravity)
    requires g.G == 1.0 && g.sqrt(1.0) == 1.0
    ensures PairForce(g, BodyA, BodyB) == Vec2(1.0, 0.0)
    ensures PairForce(g, BodyB, BodyA) == Vec2(-1.0, 0.0)
  {
    assert Sq(1.0) + Sq(0.0) == 1.0;
    assert Sq(-1.0) + Sq(0.0) == 1.0;
    assert Sq(1.0) == 1.0;
  }

  /** With `G = 1` the two bodies pull each other with unit force along the x-axis. */
  lemma TwoBodyForces(g: Gravity)
    requires g.G == 1.0 && IsSqrt(g.sqrt)
    ensures Forces(g, [BodyA, BodyB]) == [Vec2(1.0, 0.0), Vec2(-1.0, 0.0)]
  {
    SqrtOfOne(g.sqrt);
    ScenarioTable(g);
  }

  /** The table of the scenario's contributions, for any root that maps one to one. */
  lemma ScenarioTable(g: Gravity)
    requires g.G == 1.0 && g.sqrt(1.0) == 1.0
    ensures Forces(g, [BodyA, BodyB]) == [Vec2(1.0, 0.0), Vec2(-1.0, 0.0)]
  {
    ScenarioPulls(g);
    var M := Pairs(g, [BodyA, BodyB]);
    assert M[0] == [Zero, Vec2(1.0, 0.0)];
    assert M[1] == [Vec2(-1.0, 0.0), Zero];
    assert RowSum(M[0], 1) == Zero;
    assert RowSum(M[1], 1) == Vec2(-1.0, 0.0);
    assert RowSum(M[0], 2) == Vec2(1.0, 0.0);
    assert RowSum(M[1], 2) == Vec2(-1.0, 0.0);
  }

  /**
   * One step of `0.01` from the two-body scenario leaves A moving at
   * `(0.01, 0)` and B at `(-0.01, 0)`, each position moved by its new
   * velocity.
   */
  lemma TwoBodyStep(g: Gravity)
    requires g.G == 1.0 && IsSqrt(g.sqrt)
    ensures Step(g, [BodyA, BodyB], 0.01)
      == [BodyA.(velocity := Vec2(0.01, 0.0), position := Vec2(0.0001, 0.0)),
          BodyB.(velocity := Vec2(-0.01, 0.0), position := Vec2(0.9999, 0.0))]
  {
    TwoBodyForces(g);
    var s := [BodyA, BodyB];
    var r := Step(g, s, 0.01);
    assert r[0] == Advance(BodyA, Vec2(1.0, 0.0), 0.01);
    assert r[1] == Advance(BodyB, Vec2(-1.0, 0.0), 0.01);
  }
}
