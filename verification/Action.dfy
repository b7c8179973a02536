/** Player actions: clamped velocities, proportional energy costs, and the batch that spends them. Arithmetic in
    double precision is modelled over the reals. */
module Action {
  import opened Inventory
  import opened Numbers

  /** Signed 16-bit velocities. */
  type Velocity = v: int | -0x8000 <= v < 0x8000

  datatype Action =
    | MoveFoot(velocity: Velocity)
    | Catch(velocity: Velocity)
    | Run(velocity: Velocity)
    | TurnHead(velocity: Velocity)
    | TurnTorso(velocity: Velocity)

  datatype ClientAction = ClientAction(action: Action, player: nat)

  const MOVE_FOOT_MAX_VELOCITY: Velocity := 32000
  const MOVE_FOOT_MAX_COST: Energy := 100
  const RUN_MAX_FORWARD_VELOCITY: Velocity := 16000
  const RUN_MAX_FORWARD_COST: Energy := 100
  const RUN_MAX_BACKWARD_VELOCITY: Velocity := -8000
  const RUN_MAX_BACKWARD_COST: Energy := 200
  const TURN_HEAD_MAX_VELOCITY: Velocity := 100
  const TURN_HEAD_MAX_COST: Energy := 20
  const TURN_TORSO_MAX_VELOCITY: Velocity := 200
  const TURN_TORSO_MAX_COST: Energy := 40
  const VELOCITY_SCALE_FACTOR: real := 1000.0

  // ----- clamping and cost -----

  function Clamp(v: int, low: int, high: int): int {
    if v > 0 then (if v < high then v else high) else (if v > low then v else low)
  }

  function RealAbs(x: real): real { if x >= 0.0 then x else -x }

  /** Rounds to the nearest integer, halves away from zero. */
  function LRound(x: real): int {
    if x >= 0.0 then (x + 0.5).Floor else -((-x + 0.5).Floor)
  }

  /** The conversion to an 8-bit quantity. */
  function ToEnergy(cost: int): Energy { cost % 0x100 }

  /** The share of the maximum cost that a magnitude has of its maximum. */
  function Share(magnitude: nat, maximum: nat, maxCost: nat): real
    requires maximum > 0
  {
    magnitude as real / maximum as real * maxCost as real
  }

  /** The cost of a velocity clamped to the same maximum in both directions. */
  function SymmetricCost(v: int, maximum: nat, maxCost: nat): int
    requires maximum > 0
  {
    LRound(Share(Abs(Clamp(v, 0 - maximum, maximum)), maximum, maxCost))
  }

  function ForwardCost(velocity: int): int {
    LRound(velocity as real / RUN_MAX_FORWARD_VELOCITY as real * RUN_MAX_FORWARD_COST as real)
  }

  function BackwardCost(velocity: int): int {
    LRound(RealAbs(velocity as real / RUN_MAX_BACKWARD_VELOCITY as real) * RUN_MAX_BACKWARD_COST as real)
  }

  function RunCost(v: int): int {
    var velocity := Clamp(v, RUN_MAX_BACKWARD_VELOCITY, RUN_MAX_FORWARD_VELOCITY);
    if v > 0 then ForwardCost(velocity) else BackwardCost(velocity)
  }

  function Cost(a: Action): Energy {
    match a
    case MoveFoot(v) => ToEnergy(SymmetricCost(v, MOVE_FOOT_MAX_VELOCITY, MOVE_FOOT_MAX_COST))
    case Catch(_) => 0
    case Run(v) => ToEnergy(RunCost(v))
    case TurnHead(v) => ToEnergy(SymmetricCost(v, TURN_HEAD_MAX_VELOCITY, TURN_HEAD_MAX_COST))
    case TurnTorso(v) => ToEnergy(SymmetricCost(v, TURN_TORSO_MAX_VELOCITY, TURN_TORSO_MAX_COST))
  }

  lemma ProductNonNegative(a: real, b: real)
    requires 0.0 <= a && 0.0 <= b
    ensures 0.0 <= a * b
  {
  }

  lemma ProductMonotone(p: real, q: real, c: real)
    requires p <= q && 0.0 <= c
    ensures p * c <= q * c
  {
    ProductNonNegative(q - p, c);
    assert (q - p) * c == q * c - p * c;
  }

  lemma QuotientTimes(x: real, d: real)
    requires d > 0.0
    ensures x / d * d == x
  {
  }

  lemma ProductStrict(p: real, q: real, d: real)
    requires d > 0.0
    ensures p < q ==> p * d < q * d
  {
    assert (q - p) * d == q * d - p * d;
  }

  lemma QuotientOrders(x: real, y: real, d: real)
    requires d > 0.0 && x <= y
    ensures x / d <= y / d
  {
    QuotientTimes(x, d);
    QuotientTimes(y, d);
    ProductStrict(y / d, x / d, d);
  }

  lemma ShareMonotone(m: nat, n: nat, maximum: nat, maxCost: nat)
    requires maximum > 0 && m <= n
    ensures Share(m, maximum, maxCost) <= Share(n, maximum, maxCost)
  {
    QuotientOrders(m as real, n as real, maximum as real);
    ProductMonotone(m as real / maximum as real, n as real / maximum as real, maxCost as real);
  }

  lemma ShareOfNothing(maximum: nat, maxCost: nat)
    requires maximum > 0
    ensures Share(0, maximum, maxCost) == 0.0
  {
    assert 0 as real / maximum as real == 0.0;
  }

  lemma ShareOfMaximum(maximum: nat, maxCost: nat)
    requires maximum > 0
    ensures Share(maximum, maximum, maxCost) == maxCost as real
  {
    assert maximum as real / maximum as real == 1.0;
  }

  lemma ShareBounds(m: nat, n: nat, maximum: nat, maxCost: nat)
    requires maximum > 0 && m <= n <= maximum
    ensures 0.0 <= Share(m, maximum, maxCost) <= Share(n, maximum, maxCost) <= maxCost as real
    ensures Share(maximum, maximum, maxCost) == maxCost as real
  {
    ShareOfNothing(maximum, maxCost);
    ShareMonotone(0, m, maximum, maxCost);
    ShareMonotone(m, n, maximum, maxCost);
    ShareMonotone(n, maximum, maximum, maxCost);
    ShareOfMaximum(maximum, maxCost);
  }

  lemma RoundMonotone(x: real, y: real)
    requires 0.0 <= x <= y
    ensures 0 <= LRound(x) <= LRound(y)
    ensures -0.5 < LRound(x) as real - x <= 0.5
  {
  }

  lemma RoundWhole(n: nat)
    ensures LRound(n as real) == n
  {
  }

  /** For every velocity, positive maximum and maximum cost that fits 8 bits: the cost lies between nothing and the
      maximum cost, so that the conversion loses nothing; it is the integer nearest to the proportional share, a half
      being rounded up; it grows with the magnitude of the velocity, and is the maximum cost at the maximum and
      beyond. */
  lemma CostArithmetic(v: int, w: int, maximum: nat, maxCost: Energy)
    requires maximum > 0 && Abs(v) <= Abs(w)
    ensures 0 <= SymmetricCost(v, maximum, maxCost) <= SymmetricCost(w, maximum, maxCost) <= maxCost
    ensures ToEnergy(SymmetricCost(v, maximum, maxCost)) == SymmetricCost(v, maximum, maxCost)
    ensures Abs(v) >= maximum ==> SymmetricCost(v, maximum, maxCost) == maxCost
    ensures Abs(v) <= maximum ==>
              -0.5 < SymmetricCost(v, maximum, maxCost) as real - Share(Abs(v), maximum, maxCost) <= 0.5
  {
    var m, n := Abs(Clamp(v, 0 - maximum, maximum)), Abs(Clamp(w, 0 - maximum, maximum));
    ShareBounds(m, n, maximum, maxCost);
    RoundMonotone(Share(m, maximum, maxCost), Share(n, maximum, maxCost));
    RoundMonotone(Share(n, maximum, maxCost), maxCost as real);
    RoundWhole(maxCost);
  }

  lemma QuotientOfNegatives(m: nat, n: nat)
    requires n > 0
    ensures RealAbs((-(m as int)) as real / (-(n as int)) as real) == m as real / n as real
  {
    var q := m as real / n as real;
    assert m as real == q * n as real;
    assert (-(m as int)) as real == q * (-(n as int)) as real;
  }

  lemma BackwardCostIsSymmetric(v: int)
    requires v <= 0
    ensures RunCost(v) == SymmetricCost(v, -RUN_MAX_BACKWARD_VELOCITY, RUN_MAX_BACKWARD_COST)
  {
    var clamped := Clamp(v, RUN_MAX_BACKWARD_VELOCITY, RUN_MAX_FORWARD_VELOCITY);
    QuotientOfNegatives(Abs(clamped), 8000);
    assert clamped == -(Abs(clamped) as int);
  }

  /** Running is two such costs, one for each direction. */
  lemma RunCostIsDirectional(v: int)
    ensures RunCost(v) == if v > 0 then SymmetricCost(v, RUN_MAX_FORWARD_VELOCITY, RUN_MAX_FORWARD_COST)
                          else SymmetricCost(v, -RUN_MAX_BACKWARD_VELOCITY, RUN_MAX_BACKWARD_COST)
    ensures 0 <= RunCost(v) <= if v > 0 then RUN_MAX_FORWARD_COST else RUN_MAX_BACKWARD_COST
  {
    if v > 0 {
      CostArithmetic(v, v, RUN_MAX_FORWARD_VELOCITY, RUN_MAX_FORWARD_COST);
    } else {
      CostArithmetic(v, v, -RUN_MAX_BACKWARD_VELOCITY, RUN_MAX_BACKWARD_COST);
      BackwardCostIsSymmetric(v);
    }
  }

  /** The only integer for a share, a half being rounded up. */
  predicate Nearest(cost: int, share: real) { -0.5 < cost as real - share <= 0.5 }

  lemma ShareIs(magnitude: nat)
    ensures Share(magnitude, 16000, 100) == magnitude as real / 160.0
    ensures Share(magnitude, 8000, 200) == magnitude as real / 40.0
    ensures Share(magnitude, 32000, 100) == magnitude as real / 320.0
    ensures Share(magnitude, 100, 20) == Share(magnitude, 200, 40) == magnitude as real / 5.0
  {
  }

  /** Running forward costs a unit for each 160 of velocity and 100 from 16000 on; running backward a unit for each 40
      and 200 from 8000 on. */
  lemma RunCosts(v: Velocity)
    ensures v >= 16000 ==> Cost(Run(v)) == 100
    ensures 0 <= v <= 16000 ==> Nearest(Cost(Run(v)), v as real / 160.0)
    ensures -8000 <= v <= 0 ==> Nearest(Cost(Run(v)), (0 - v) as real / 40.0)
    ensures v <= -8000 ==> Cost(Run(v)) == 200
  {
    RunCostIsDirectional(v);
    if v > 0 {
      CostArithmetic(v, v, 16000, 100);
    } else {
      CostArithmetic(v, v, 8000, 200);
    }
    ShareIs(Abs(v));
    assert v == 0 ==> Cost(Run(v)) == 0;
  }

  /** In either direction, moving the foot costs a unit for each 320 of velocity and 100 from 32000 on; turning the head
      a unit for each 5 and 20 from 100 on; turning the torso a unit for each 5 and 40 from 200 on. A catch is free. */
  lemma SymmetricCosts(v: Velocity)
    ensures Abs(v) >= 32000 ==> Cost(MoveFoot(v)) == 100
    ensures Abs(v) <= 32000 ==> Nearest(Cost(MoveFoot(v)), Abs(v) as real / 320.0)
    ensures Abs(v) >= 100 ==> Cost(TurnHead(v)) == 20
    ensures Abs(v) <= 100 ==> Nearest(Cost(TurnHead(v)), Abs(v) as real / 5.0)
    ensures Abs(v) >= 200 ==> Cost(TurnTorso(v)) == 40
    ensures Abs(v) <= 200 ==> Nearest(Cost(TurnTorso(v)), Abs(v) as real / 5.0)
    ensures Cost(Catch(v)) == 0
  {
    CostArithmetic(v, v, 32000, 100);
    CostArithmetic(v, v, 100, 20);
    CostArithmetic(v, v, 200, 40);
    ShareIs(Abs(v));
  }
}
