/**
 * The pair resolver `checkAndResolveCollision`: a squared-distance fast reject,
 * a 1-D elastic exchange of the scalar velocities with mass = size * size, and
 * equal and opposite displacements written back into the shared ball array.
 */
module Resolver {
  import opened Balls

  /**
   * The floating-point library calls the resolver makes. They are arbitrary
   * total functions: no property of rounding, of the square root or of the
   * trigonometry is assumed anywhere except where a lemma says so.
   */
  datatype MathLib = MathLib(
    sqrt: real -> real,
    atan2: (real, real) -> real,
    sin: real -> real,
    cos: real -> real)

  /** `Array.prototype.findIndex` with an id test: the first slot holding `id`, or -1. */
  function FindIndex(s: seq<Ball>, id: int): (r: int)
    ensures -1 <= r < |s|
    ensures r == -1 <==> forall k :: 0 <= k < |s| ==> s[k].id != id
    ensures r != -1 ==> s[r].id == id && forall k :: 0 <= k < r ==> s[k].id != id
  {
    if s == [] then -1
    else if s[0].id == id then 0
    else
      var t := FindIndex(s[1..], id);
      if t == -1 then -1 else t + 1
  }

  /** The linear scan of `findIndex`, over the live array. */
  method FindIndexIn(a: array<Ball>, id: int) returns (idx: int)
    ensures idx == FindIndex(a[..], id)
  {
    idx := 0;
    while idx < a.Length && a[idx].id != id
      invariant 0 <= idx <= a.Length
      invariant forall k :: 0 <= k < idx ==> a[k].id != id
    {
      idx := idx + 1;
    }
    if idx == a.Length {
      idx := -1;
    }
  }

  function DistanceSquared(b1: Ball, b2: Ball): real
  {
    (b2.x - b1.x) * (b2.x - b1.x) + (b2.y - b1.y) * (b2.y - b1.y)
  }

  /** Half the sum of the diameters: the centre distance at which two balls touch. */
  function MinDistance(b1: Ball, b2: Ball): real
  {
    (b1.size + b2.size) / 2.0
  }

  /** Both guards of the resolver: the squared fast reject and `distance < minDistance`. */
  predicate Collides(b1: Ball, b2: Ball, env: MathLib)
  {
    DistanceSquared(b1, b2) < MinDistance(b1, b2) * MinDistance(b1, b2) &&
    env.sqrt(DistanceSquared(b1, b2)) < MinDistance(b1, b2)
  }

  /** `(moveX, moveY)`: half the overlap along the angle `atan2(dy, dx)`. */
  function Displacement(b1: Ball, b2: Ball, env: MathLib): (real, real)
  {
    var angle := env.atan2(b2.y - b1.y, b2.x - b1.x);
    var overlap := (MinDistance(b1, b2) - env.sqrt(DistanceSquared(b1, b2))) / 2.0;
    (overlap * env.cos(angle), overlap * env.sin(angle))
  }

  /** The new velocity of the first ball of a 1-D elastic collision. */
  function V1Final(m1: real, m2: real, v1: real, v2: real): real
    requires m1 + m2 != 0.0
  {
    ((m1 - m2) * v1 + 2.0 * m2 * v2) / (m1 + m2)
  }

  /** The new velocity of the second ball of a 1-D elastic collision. */
  function V2Final(m1: real, m2: real, v1: real, v2: real): real
    requires m1 + m2 != 0.0
  {
    ((m2 - m1) * v2 + 2.0 * m1 * v1) / (m1 + m2)
  }

  /** Both new velocities are the old ones plus opposite impulses `m2 * t` and `-m1 * t`. */
  lemma ImpulseForm(m1: real, m2: real, v1: real, v2: real, t: real)
    requires m1 + m2 != 0.0
    requires t * (m1 + m2) == 2.0 * (v2 - v1)
    ensures V1Final(m1, m2, v1, v2) == v1 + m2 * t
    ensures V2Final(m1, m2, v1, v2) == v2 - m1 * t
  {
    var s := m1 + m2;
    calc {
      (v1 + m2 * t) * s;
      v1 * s + m2 * (t * s);
      v1 * s + m2 * (2.0 * (v2 - v1));
      (m1 - m2) * v1 + 2.0 * m2 * v2;
    }
    calc {
      (v2 - m1 * t) * s;
      v2 * s - m1 * (t * s);
      v2 * s - m1 * (2.0 * (v2 - v1));
      (m2 - m1) * v2 + 2.0 * m1 * v1;
    }
  }

  /** Conservation of momentum: `m1 v1' + m2 v2' == m1 v1 + m2 v2`. */
  lemma MomentumExchange(m1: real, m2: real, v1: real, v2: real)
    requires m1 + m2 != 0.0
    ensures m1 * V1Final(m1, m2, v1, v2) + m2 * V2Final(m1, m2, v1, v2) == m1 * v1 + m2 * v2
  {
    var t := 2.0 * (v2 - v1) / (m1 + m2);
    ImpulseForm(m1, m2, v1, v2, t);
    calc {
      m1 * (v1 + m2 * t) + m2 * (v2 - m1 * t);
      m1 * v1 + m1 * (m2 * t) + m2 * v2 - m2 * (m1 * t);
      m1 * v1 + m2 * v2;
    }
  }

  /** Conservation of kinetic energy: `m1 v1'^2 + m2 v2'^2 == m1 v1^2 + m2 v2^2`. */
  lemma EnergyExchange(m1: real, m2: real, v1: real, v2: real)
    requires m1 + m2 != 0.0
    ensures var w1, w2 := V1Final(m1, m2, v1, v2), V2Final(m1, m2, v1, v2);
            m1 * w1 * w1 + m2 * w2 * w2 == m1 * v1 * v1 + m2 * v2 * v2
  {
    var s := m1 + m2;
    var t := 2.0 * (v2 - v1) / s;
    ImpulseForm(m1, m2, v1, v2, t);
    var k := m1 * m2 * t;
    calc {
      m1 * (v1 + m2 * t) * (v1 + m2 * t) + m2 * (v2 - m1 * t) * (v2 - m1 * t);
      m1 * v1 * v1 + m2 * v2 * v2 + k * (2.0 * v1 - 2.0 * v2 + t * s);
      { assert t * s == 2.0 * (v2 - v1); }
      m1 * v1 * v1 + m2 * v2 * v2 + k * 0.0;
      m1 * v1 * v1 + m2 * v2 * v2;
    }
  }

  /** Velocities `v1, v2` becoming `w1, w2` keep the momentum of masses `m1, m2`. */
  predicate ConservesMomentum(m1: real, m2: real, v1: real, v2: real, w1: real, w2: real)
  {
    m1 * w1 + m2 * w2 == m1 * v1 + m2 * v2
  }

  /** Velocities `v1, v2` becoming `w1, w2` keep the kinetic energy of masses `m1, m2`. */
  predicate ConservesEnergy(m1: real, m2: real, v1: real, v2: real, w1: real, w2: real)
  {
    m1 * w1 * w1 + m2 * w2 * w2 == m1 * v1 * v1 + m2 * v2 * v2
  }

  /** Equal masses exchange their velocities. */
  lemma EqualMassesSwap(m: real, v1: real, v2: real)
    requires m != 0.0
    ensures V1Final(m, m, v1, v2) == v2 && V2Final(m, m, v1, v2) == v1
  {
    assert V1Final(m, m, v1, v2) == (2.0 * m * v2) / (2.0 * m);
    assert V2Final(m, m, v1, v2) == (2.0 * m * v1) / (2.0 * m);
  }

  lemma MulPositive(a: real, b: real)
    requires a > 0.0 && b > 0.0
    ensures a * b > 0.0
  {
  }

  lemma SquarePositive(a: real)
    requires a != 0.0
    ensures a * a > 0.0
  {
    if a > 0.0 {
      MulPositive(a, a);
    } else {
      MulPositive(-a, -a);
      assert (-a) * (-a) == a * a;
    }
  }

  lemma SquareNonNegative(a: real)
    ensures a * a >= 0.0
  {
    if a != 0.0 { SquarePositive(a); }
  }

  /**
   * Passing the fast reject forces a positive total mass, so the division is
   * defined: `m1 + m2 == 2 * minDistance^2 + (size1 - size2)^2 / 2 > 2 * distanceSquared >= 0`.
   */
  lemma CollisionHasMass(b1: Ball, b2: Ball)
    requires DistanceSquared(b1, b2) < MinDistance(b1, b2) * MinDistance(b1, b2)
    ensures Mass(b1) + Mass(b2) > 0.0
  {
    var md, diff := MinDistance(b1, b2), b1.size - b2.size;
    SquareNonNegative(b2.x - b1.x);
    SquareNonNegative(b2.y - b1.y);
    SquareNonNegative(diff);
    assert Mass(b1) + Mass(b2) == 2.0 * (md * md) + (diff * diff) / 2.0;
  }

  /** The two record updates of a resolved collision, one after the other. */
  function Exchange(s: seq<Ball>, i1: nat, i2: nat, moveX: real, moveY: real, v1: real, v2: real): (r: seq<Ball>)
    requires i1 < |s| && i2 < |s|
    ensures |r| == |s|
    ensures forall k :: 0 <= k < |s| && k != i1 && k != i2 ==> r[k] == s[k]
    ensures i1 != i2 ==> r[i1] == s[i1].(x := s[i1].x - moveX, y := s[i1].y - moveY, velocity := v1)
    ensures i1 != i2 ==> r[i2] == s[i2].(x := s[i2].x + moveX, y := s[i2].y + moveY, velocity := v2)
  {
    var a := s[i1 := s[i1].(x := s[i1].x - moveX, y := s[i1].y - moveY, velocity := v1)];
    a[i2 := a[i2].(x := a[i2].x + moveX, y := a[i2].y + moveY, velocity := v2)]
  }

  /**
   * The array after `checkAndResolveCollision(ball1, ball2, ballsArray)`.
   * `ball1` and `ball2` are the current states of the two balls as the grid
   * sees them; the writes go to the first slots holding their ids.
   */
  function Resolved(ball1: Ball, ball2: Ball, ballsArray: seq<Ball>, env: MathLib): (r: seq<Ball>)
    ensures SameRoster(ballsArray, r)
    ensures forall k :: 0 <= k < |r| ==>
              k == FindIndex(ballsArray, ball1.id) || k == FindIndex(ballsArray, ball2.id) || r[k] == ballsArray[k]
    ensures DistanceSquared(ball1, ball2) >= MinDistance(ball1, ball2) * MinDistance(ball1, ball2) ==>
              r == ballsArray
    ensures !Collides(ball1, ball2, env) ==> r == ballsArray
    ensures FindIndex(ballsArray, ball1.id) == -1 || FindIndex(ballsArray, ball2.id) == -1 ==>
              r == ballsArray
  {
    if !Collides(ball1, ball2, env) then ballsArray
    else
      var idx1 := FindIndex(ballsArray, ball1.id);
      var idx2 := FindIndex(ballsArray, ball2.id);
      if idx1 == -1 || idx2 == -1 then ballsArray
      else
        CollisionHasMass(ball1, ball2);
        var v1Final := V1Final(Mass(ball1), Mass(ball2), ball1.velocity, ball2.velocity);
        var v2Final := V2Final(Mass(ball1), Mass(ball2), ball1.velocity, ball2.velocity);
        var (moveX, moveY) := Displacement(ball1, ball2, env);
        Exchange(ballsArray, idx1, idx2, moveX, moveY, v1Final, v2Final)
  }

  /** The two slots a resolved collision writes, spelled out. */
  lemma ResolvedAt(ball1: Ball, ball2: Ball, ballsArray: seq<Ball>, env: MathLib)
    requires Collides(ball1, ball2, env)
    requires FindIndex(ballsArray, ball1.id) != -1 && FindIndex(ballsArray, ball2.id) != -1
    requires FindIndex(ballsArray, ball1.id) != FindIndex(ballsArray, ball2.id)
    ensures Mass(ball1) + Mass(ball2) > 0.0
    ensures var r, i1, i2 := Resolved(ball1, ball2, ballsArray, env),
                             FindIndex(ballsArray, ball1.id), FindIndex(ballsArray, ball2.id);
            var d := Displacement(ball1, ball2, env);
            && r[i1] == ballsArray[i1].(x := ballsArray[i1].x - d.0, y := ballsArray[i1].y - d.1,
                                        velocity := V1Final(Mass(ball1), Mass(ball2), ball1.velocity, ball2.velocity))
            && r[i2] == ballsArray[i2].(x := ballsArray[i2].x + d.0, y := ballsArray[i2].y + d.1,
                                        velocity := V2Final(Mass(ball1), Mass(ball2), ball1.velocity, ball2.velocity))
  {
    CollisionHasMass(ball1, ball2);
  }

  /** A resolved collision moves the two slots by equal and opposite displacements. */
  lemma ResolvedDisplacement(ball1: Ball, ball2: Ball, ballsArray: seq<Ball>, env: MathLib)
    requires Collides(ball1, ball2, env)
    requires FindIndex(ballsArray, ball1.id) != -1 && FindIndex(ballsArray, ball2.id) != -1
    requires FindIndex(ballsArray, ball1.id) != FindIndex(ballsArray, ball2.id)
    ensures var r, i1, i2 := Resolved(ball1, ball2, ballsArray, env),
                             FindIndex(ballsArray, ball1.id), FindIndex(ballsArray, ball2.id);
            && r[i1].x + r[i2].x == ballsArray[i1].x + ballsArray[i2].x
            && r[i1].y + r[i2].y == ballsArray[i1].y + ballsArray[i2].y
            && ballsArray[i1].x - r[i1].x == r[i2].x - ballsArray[i2].x
            && ballsArray[i1].y - r[i1].y == r[i2].y - ballsArray[i2].y
  {
    ResolvedAt(ball1, ball2, ballsArray, env);
  }

  /**
   * A resolved collision conserves momentum and kinetic energy, with the masses
   * `size * size` of `ball1` and `ball2`, and equal sizes swap the velocities.
   */
  lemma ResolvedExchange(ball1: Ball, ball2: Ball, ballsArray: seq<Ball>, env: MathLib)
    requires Collides(ball1, ball2, env)
    requires FindIndex(ballsArray, ball1.id) != -1 && FindIndex(ballsArray, ball2.id) != -1
    requires FindIndex(ballsArray, ball1.id) != FindIndex(ballsArray, ball2.id)
    ensures var r, i1, i2 := Resolved(ball1, ball2, ballsArray, env),
                             FindIndex(ballsArray, ball1.id), FindIndex(ballsArray, ball2.id);
            && ConservesMomentum(Mass(ball1), Mass(ball2), ball1.velocity, ball2.velocity, r[i1].velocity, r[i2].velocity)
            && ConservesEnergy(Mass(ball1), Mass(ball2), ball1.velocity, ball2.velocity, r[i1].velocity, r[i2].velocity)
            && (ball1.size == ball2.size ==> r[i1].velocity == ball2.velocity && r[i2].velocity == ball1.velocity)
  {
    ResolvedVelocities(ball1, ball2, ballsArray, env);
    var r, i1, i2 := Resolved(ball1, ball2, ballsArray, env),
                     FindIndex(ballsArray, ball1.id), FindIndex(ballsArray, ball2.id);
    ExchangeLaws(Mass(ball1), Mass(ball2), ball1.velocity, ball2.velocity, r[i1].velocity, r[i2].velocity);
  }

  /** The new velocities of the two written slots. */
  lemma ResolvedVelocities(ball1: Ball, ball2: Ball, ballsArray: seq<Ball>, env: MathLib)
    requires Collides(ball1, ball2, env)
    requires FindIndex(ballsArray, ball1.id) != -1 && FindIndex(ballsArray, ball2.id) != -1
    requires FindIndex(ballsArray, ball1.id) != FindIndex(ballsArray, ball2.id)
    ensures Mass(ball1) + Mass(ball2) > 0.0
    ensures var r, i1, i2 := Resolved(ball1, ball2, ballsArray, env),
                             FindIndex(ballsArray, ball1.id), FindIndex(ballsArray, ball2.id);
            && r[i1].velocity == V1Final(Mass(ball1), Mass(ball2), ball1.velocity, ball2.velocity)
            && r[i2].velocity == V2Final(Mass(ball1), Mass(ball2), ball1.velocity, ball2.velocity)
  {
    ResolvedAt(ball1, ball2, ballsArray, env);
  }

  /** The three laws of the exchange, for new velocities given by name. */
  lemma ExchangeLaws(m1: real, m2: real, v1: real, v2: real, w1: real, w2: real)
    requires m1 + m2 != 0.0
    requires w1 == V1Final(m1, m2, v1, v2) && w2 == V2Final(m1, m2, v1, v2)
    ensures ConservesMomentum(m1, m2, v1, v2, w1, w2)
    ensures ConservesEnergy(m1, m2, v1, v2, w1, w2)
    ensures m1 == m2 ==> w1 == v2 && w2 == v1
  {
    MomentumExchange(m1, m2, v1, v2);
    EnergyExchange(m1, m2, v1, v2);
    if m1 == m2 {
      EqualMassesSwap(m1, v1, v2);
    }
  }

  /** With distinct ids, a ball taken from slot `p` is written back to slot `p`. */
  lemma FindIndexOfDistinct(s: seq<Ball>, p: nat)
    requires DistinctIds(s) && p < |s|
    ensures FindIndex(s, s[p].id) == p
  {
  }

  /**
   * Under an exact square root of the one value it is applied to, the second
   * guard only excludes non-positive sizes: a pair collides exactly when the
   * centres are closer than `minDistance` and `minDistance` is positive.
   */
  lemma ExactRootCollision(b1: Ball, b2: Ball, env: MathLib)
    requires env.sqrt(DistanceSquared(b1, b2)) >= 0.0
    requires env.sqrt(DistanceSquared(b1, b2)) * env.sqrt(DistanceSquared(b1, b2)) == DistanceSquared(b1, b2)
    ensures Collides(b1, b2, env) <==>
            DistanceSquared(b1, b2) < MinDistance(b1, b2) * MinDistance(b1, b2) && MinDistance(b1, b2) > 0.0
  {
    var d, md := env.sqrt(DistanceSquared(b1, b2)), MinDistance(b1, b2);
    SquareMonotone(d, md);
  }

  lemma SquareMonotone(a: real, b: real)
    ensures 0.0 < b <= a ==> b * b <= a * a
  {
    if 0.0 < b <= a {
      MulMonotone(b, b, a);
      MulMonotone(a, b, a);
    }
  }

  lemma MulMonotone(c: real, a: real, b: real)
    requires c > 0.0 && a <= b
    ensures c * a <= c * b
  {
    if a < b { MulPositive(c, b - a); }
  }

  /** The writes of a resolved collision, in the order the resolver makes them. */
  lemma ResolvedWrites(ball1: Ball, ball2: Ball, ballsArray: seq<Ball>, env: MathLib)
    requires Collides(ball1, ball2, env)
    requires FindIndex(ballsArray, ball1.id) != -1 && FindIndex(ballsArray, ball2.id) != -1
    ensures Mass(ball1) + Mass(ball2) > 0.0
    ensures var i1, i2 := FindIndex(ballsArray, ball1.id), FindIndex(ballsArray, ball2.id);
            var d := Displacement(ball1, ball2, env);
            Resolved(ball1, ball2, ballsArray, env) ==
            Exchange(ballsArray, i1, i2, d.0, d.1, V1Final(Mass(ball1), Mass(ball2), ball1.velocity, ball2.velocity),
                     V2Final(Mass(ball1), Mass(ball2), ball1.velocity, ball2.velocity))
  {
    CollisionHasMass(ball1, ball2);
  }

  /** The six field writes of a resolved collision, applied to the live array. */
  method ApplyExchange(ballsArray: array<Ball>, idx1: nat, idx2: nat, moveX: real, moveY: real, v1Final: real, v2Final: real)
    requires idx1 < ballsArray.Length && idx2 < ballsArray.Length
    modifies ballsArray
    ensures ballsArray[..] == Exchange(old(ballsArray[..]), idx1, idx2, moveX, moveY, v1Final, v2Final)
  {
    ballsArray[idx1] := ballsArray[idx1].(x := ballsArray[idx1].x - moveX,
                                          y := ballsArray[idx1].y - moveY,
                                          velocity := v1Final);
    ballsArray[idx2] := ballsArray[idx2].(x := ballsArray[idx2].x + moveX,
                                          y := ballsArray[idx2].y + moveY,
                                          velocity := v2Final);
  }

  /** The in-place resolver over the live array of balls. */
  method CheckAndResolveCollision(ball1: Ball, ball2: Ball, ballsArray: array<Ball>, env: MathLib)
    modifies ballsArray
    ensures ballsArray[..] == Resolved(ball1, ball2, old(ballsArray[..]), env)
  {
    ghost var before := ballsArray[..];
    var distanceSquared := DistanceSquared(ball1, ball2);
    var minDistance := MinDistance(ball1, ball2);

    // the fast reject, before any square root
    if distanceSquared >= minDistance * minDistance {
      return;
    }

    var distance := env.sqrt(distanceSquared);
    if distance < minDistance {
      var idx1 := FindIndexIn(ballsArray, ball1.id);
      var idx2 := FindIndexIn(ballsArray, ball2.id);
      if idx1 == -1 || idx2 == -1 {
        return;
      }

      // mass proportional to area
      var mass1 := Mass(ball1);
      var mass2 := Mass(ball2);
      ResolvedWrites(ball1, ball2, before, env);
      var v1Final := V1Final(mass1, mass2, ball1.velocity, ball2.velocity);
      var v2Final := V2Final(mass1, mass2, ball1.velocity, ball2.velocity);

      // half the overlap each, along the angle atan2(dy, dx)
      var (moveX, moveY) := Displacement(ball1, ball2, env);

      ApplyExchange(ballsArray, idx1, idx2, moveX, moveY, v1Final, v2Final);
    }
  }
}
