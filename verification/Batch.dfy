/** The four actions that spend energy, and the batch of actions of one frame. The physics is a log of impulses, and
    the body of a player is known by the heading of its torso, which no impulse turns before the next step. */
module Batch {
  import opened Inventory
  import opened Action
  import opened Numbers

  datatype Part = Torso | Head | Foot

  datatype Vec2 = Vec2(x: real, y: real)

  datatype Impulse =
    | Linear(player: nat, part: Part, target: Vec2)
    | Angular(player: nat, part: Part, velocity: real)

  /** The cosine and the sine of the angle of a torso. */
  datatype Heading = Heading(cosine: real, sine: real)

  /** The abstract value of what a batch changes. */
  datatype Outcome = Outcome(stock: seq<Energy>, results: seq<SpendResult>, log: seq<Impulse>)

  function Scaled(v: int): real { v as real / VELOCITY_SCALE_FACTOR }

  /** A velocity along a heading. */
  function Target(heading: Heading, v: int): Vec2 {
    Vec2(Scaled(v) * heading.cosine, Scaled(v) * heading.sine)
  }

  function Along(player: nat, part: Part, heading: Heading, v: int): Impulse {
    Linear(player, part, Target(heading, v))
  }

  /** Turning the torso passes on the velocity as requested, not as clamped. */
  function Impulses(player: nat, heading: Heading, a: Action): seq<Impulse> {
    match a
    case MoveFoot(v) =>
      [Along(player, Foot, heading, Clamp(v, -MOVE_FOOT_MAX_VELOCITY, MOVE_FOOT_MAX_VELOCITY))]
    case Catch(_) => []
    case Run(v) =>
      var velocity := Clamp(v, RUN_MAX_BACKWARD_VELOCITY, RUN_MAX_FORWARD_VELOCITY);
      [Along(player, Torso, heading, velocity),
       Along(player, Head, heading, velocity),
       Along(player, Foot, heading, velocity)]
    case TurnHead(v) => [Angular(player, Head, Scaled(Clamp(v, -TURN_HEAD_MAX_VELOCITY, TURN_HEAD_MAX_VELOCITY)))]
    case TurnTorso(v) => [Angular(player, Torso, Scaled(v)), Angular(player, Foot, Scaled(v))]
  }

  /** The impulse pushes this part at this speed along the heading, and not across it. */
  ghost predicate Pushes(i: Impulse, player: nat, part: Part, heading: Heading, speed: real) {
    && i.Linear? && i.player == player && i.part == part
    && i.target.x * heading.cosine + i.target.y * heading.sine == speed
    && i.target.y * heading.cosine - i.target.x * heading.sine == 0.0
  }

  ghost predicate OnUnitCircle(heading: Heading) {
    heading.cosine * heading.cosine + heading.sine * heading.sine == 1.0
  }

  lemma AlongPushes(player: nat, part: Part, heading: Heading, v: int)
    requires OnUnitCircle(heading)
    ensures Pushes(Along(player, part, heading, v), player, part, heading, v as real / 1000.0)
  {
    var s, c, n := v as real / 1000.0, heading.cosine, heading.sine;
    assert s * c * c + s * n * n == s * (c * c + n * n);
  }

  /** Moving the foot pushes it along the heading of the torso at a thousandth of the velocity, at most 32 either way;
      running pushes torso, head and foot, at most 16 forward and 8 backward; turning the head turns it at most 0.1
      either way; turning the torso turns the foot with it, without limit. A catch moves nothing. */
  lemma ImpulsesOfActions(player: nat, heading: Heading, v: Velocity)
    requires OnUnitCircle(heading)
    ensures var s := Impulses(player, heading, MoveFoot(v));
            var speed := if v > 32000 then 32.0 else if v < -32000 then -32.0 else v as real / 1000.0;
            |s| == 1 && Pushes(s[0], player, Foot, heading, speed)
    ensures var s := Impulses(player, heading, Run(v));
            var speed := if v > 16000 then 16.0 else if v < -8000 then -8.0 else v as real / 1000.0;
            && |s| == 3 && Pushes(s[0], player, Torso, heading, speed)
            && Pushes(s[1], player, Head, heading, speed) && Pushes(s[2], player, Foot, heading, speed)
    ensures var speed := if v > 100 then 0.1 else if v < -100 then -0.1 else v as real / 1000.0;
            Impulses(player, heading, TurnHead(v)) == [Angular(player, Head, speed)]
    ensures Impulses(player, heading, TurnTorso(v))
         == [Angular(player, Torso, v as real / 1000.0), Angular(player, Foot, v as real / 1000.0)]
    ensures Impulses(player, heading, Catch(v)) == []
  {
    AlongPushes(player, Foot, heading, Clamp(v, -32000, 32000));
    var velocity := Clamp(v, -8000, 16000);
    AlongPushes(player, Torso, heading, velocity);
    AlongPushes(player, Head, heading, velocity);
    AlongPushes(player, Foot, heading, velocity);
  }

  /** The velocities that an action is charged for. */
  function Limits(a: Action): (int, int) {
    match a
    case MoveFoot(_) => (-MOVE_FOOT_MAX_VELOCITY, MOVE_FOOT_MAX_VELOCITY)
    case Catch(_) => (0, 0)
    case Run(_) => (RUN_MAX_BACKWARD_VELOCITY, RUN_MAX_FORWARD_VELOCITY)
    case TurnHead(_) => (-TURN_HEAD_MAX_VELOCITY, TURN_HEAD_MAX_VELOCITY)
    case TurnTorso(_) => (-TURN_TORSO_MAX_VELOCITY, TURN_TORSO_MAX_VELOCITY)
  }

  /** The impulse is that of a velocity within the limits. */
  ghost predicate WithinLimits(i: Impulse, heading: Heading, limits: (int, int)) {
    match i
    case Linear(player, part, _) =>
      exists v: int :: limits.0 <= v <= limits.1 && i == Along(player, part, heading, v)
    case Angular(_, _, velocity) => Scaled(limits.0) <= velocity <= Scaled(limits.1)
  }

  lemma AlongIsWithin(player: nat, part: Part, heading: Heading, v: int, limits: (int, int))
    requires limits.0 <= v <= limits.1
    ensures WithinLimits(Along(player, part, heading, v), heading, limits)
  {
  }

  /** An action moves the body faster than it is charged for exactly if it turns the torso at more than the maximum. */
  lemma ImpulsesWithinLimitsIff(player: nat, heading: Heading, a: Action)
    ensures (forall i <- Impulses(player, heading, a) :: WithinLimits(i, heading, Limits(a)))
            <==> (a.TurnTorso? ==> Limits(a).0 <= a.velocity <= Limits(a).1)
  {
    var s := Impulses(player, heading, a);
    match a
    case MoveFoot(v) =>
      AlongIsWithin(player, Foot, heading, Clamp(v, Limits(a).0, Limits(a).1), Limits(a));
    case Run(v) =>
      var velocity := Clamp(v, Limits(a).0, Limits(a).1);
      AlongIsWithin(player, Torso, heading, velocity, Limits(a));
      AlongIsWithin(player, Head, heading, velocity, Limits(a));
      AlongIsWithin(player, Foot, heading, velocity, Limits(a));
    case TurnTorso(v) =>
      assert s[0].velocity == Scaled(v) && s[0] in s;
    case _ =>
  }

  /** A torso turned at 201 costs what one turned at 200 does, and turns faster. */
  lemma FastTurnIsUncharged(player: nat, heading: Heading)
    ensures Cost(TurnTorso(201)) == Cost(TurnTorso(200)) == TURN_TORSO_MAX_COST
    ensures Angular(player, Torso, 0.201) in Impulses(player, heading, TurnTorso(201))
    ensures !WithinLimits(Angular(player, Torso, 0.201), heading, Limits(TurnTorso(201)))
  {
    CostArithmetic(200, 201, TURN_TORSO_MAX_VELOCITY, TURN_TORSO_MAX_COST);
    assert Impulses(player, heading, TurnTorso(201))[0] == Angular(player, Torso, 0.201);
  }

  // ----- the meaning of a batch -----

  /** Spends the cost, and moves the body if there was enough. */
  function Charge(policy: Policy, o: Outcome, player: nat, cost: Energy, impulses: seq<Impulse>): Outcome
    requires player < |o.stock|
  {
    var (left, result) := Spent(policy, o.stock[player], cost);
    Outcome(o.stock[player := left], o.results + [result], o.log + if result.SpendSuccess? then impulses else [])
  }

  function ActOne(policy: Policy, body: seq<Heading>, o: Outcome, c: ClientAction): Outcome
    requires |body| == |o.stock|
  {
    if c.player >= |o.stock| then o.(results := o.results + [Understock])
    else if c.action.Catch? then o.(results := o.results + [SpendSuccess])
    else Charge(policy, o, c.player, Cost(c.action), Impulses(c.player, body[c.player], c.action))
  }

  ghost function ActAll(
      policy: Policy, body: seq<Heading>, stock: seq<Energy>, actions: seq<ClientAction>): (o: Outcome)
    requires |body| == |stock|
    ensures |o.stock| == |stock| && |o.results| == |actions|
  {
    if actions == [] then Outcome(stock, [], []) else
      ActOne(policy, body, ActAll(policy, body, stock, actions[..|actions| - 1]), actions[|actions| - 1])
  }

  // ----- one player's part of a batch -----

  ghost function Only(p: nat, actions: seq<ClientAction>): seq<ClientAction> {
    if actions == [] then [] else
      var last := actions[|actions| - 1];
      Only(p, actions[..|actions| - 1]) + if last.player == p then [last] else []
  }

  ghost function ResultsOf(p: nat, actions: seq<ClientAction>, results: seq<SpendResult>): seq<SpendResult>
    requires |actions| == |results|
  {
    if actions == [] then [] else
      var n := |actions| - 1;
      ResultsOf(p, actions[..n], results[..n]) + if actions[n].player == p then [results[n]] else []
  }

  ghost function LogOf(p: nat, log: seq<Impulse>): seq<Impulse> {
    if log == [] then [] else
      var last := log[|log| - 1];
      LogOf(p, log[..|log| - 1]) + if last.player == p then [last] else []
  }

  lemma {:induction false} LogOfConcat(p: nat, a: seq<Impulse>, b: seq<Impulse>)
    ensures LogOf(p, a + b) == LogOf(p, a) + LogOf(p, b)
  {
    if b == [] {
      assert a + b == a;
    } else {
      var n := |b| - 1;
      assert (a + b)[..|a| + n] == a + b[..n];
      LogOfConcat(p, a, b[..n]);
    }
  }

  lemma LogOfImpulses(p: nat, player: nat, heading: Heading, a: Action)
    ensures LogOf(p, Impulses(player, heading, a)) == if p == player then Impulses(player, heading, a) else []
  {
    var s := Impulses(player, heading, a);
    if |s| == 3 {
      assert s[..2][..1] == [s[0]] && s[..2] == [s[0], s[1]] && s == [s[0], s[1], s[2]];
      LogOfOne(p, s[0]);
      assert LogOf(p, s[..2][..1]) == LogOf(p, [s[0]]);
    } else if |s| == 2 {
      assert s[..1] == [s[0]] && s == [s[0], s[1]];
      LogOfOne(p, s[0]);
    } else if |s| == 1 {
      assert s == [s[0]];
      LogOfOne(p, s[0]);
    }
  }

  lemma LogOfOne(p: nat, i: Impulse)
    ensures LogOf(p, [i]) == if i.player == p then [i] else []
  {
    assert [i][..0] == [];
  }

  /** Players do not interfere: what a batch leaves of a player's stock, answers to a player and applies to a
      player's body is what a batch of this player's actions alone would, whatever stocks the other players have. */
  lemma {:induction false} Projection(
      policy: Policy, body: seq<Heading>, p: nat, stock: seq<Energy>, other: seq<Energy>,
      actions: seq<ClientAction>)
    requires p < |body| == |stock| == |other| && stock[p] == other[p]
    ensures var all, solo := ActAll(policy, body, stock, actions), ActAll(policy, body, other, Only(p, actions));
            && all.stock[p] == solo.stock[p]
            && ResultsOf(p, actions, all.results) == solo.results
            && LogOf(p, all.log) == solo.log
            && solo.stock == other[p := solo.stock[p]]
  {
    if actions != [] {
      var n := |actions| - 1;
      Projection(policy, body, p, stock, other, actions[..n]);
      ProjectOne(
        policy, body, p, ActAll(policy, body, stock, actions[..n]),
        ActAll(policy, body, other, Only(p, actions[..n])), actions[n]);
      var before, all := ActAll(policy, body, stock, actions[..n]), ActAll(policy, body, stock, actions);
      assert all.results[..n] == before.results;
      if actions[n].player == p {
        var own := Only(p, actions);
        assert own[..|own| - 1] == Only(p, actions[..n]);
      } else {
        assert Only(p, actions) == Only(p, actions[..n]);
      }
    }
  }

  /** Two outcomes agree on a player. */
  ghost predicate Agree(p: nat, all: Outcome, solo: Outcome) {
    p < |all.stock| == |solo.stock| && all.stock[p] == solo.stock[p] && LogOf(p, all.log) == solo.log
  }

  lemma ChargeOwn(policy: Policy, p: nat, all: Outcome, solo: Outcome, cost: Energy, impulses: seq<Impulse>)
    requires Agree(p, all, solo) && LogOf(p, impulses) == impulses
    ensures var next, own := Charge(policy, all, p, cost, impulses), Charge(policy, solo, p, cost, impulses);
            && Agree(p, next, own)
            && next.results[|all.results|..] == own.results[|solo.results|..]
            && own.stock == solo.stock[p := own.stock[p]]
  {
    LogOfConcat(p, all.log, impulses);
    LogOfConcat(p, all.log, []);
  }

  lemma ChargeOther(policy: Policy, p: nat, all: Outcome, player: nat, cost: Energy, impulses: seq<Impulse>)
    requires p < |all.stock| && player < |all.stock| && player != p && LogOf(p, impulses) == []
    ensures var next := Charge(policy, all, player, cost, impulses);
            next.stock[p] == all.stock[p] && LogOf(p, next.log) == LogOf(p, all.log)
  {
    LogOfConcat(p, all.log, impulses);
    LogOfConcat(p, all.log, []);
  }

  lemma ProjectOne(policy: Policy, body: seq<Heading>, p: nat, all: Outcome, solo: Outcome, c: ClientAction)
    requires Agree(p, all, solo) && |body| == |all.stock|
    ensures var next, own := ActOne(policy, body, all, c), ActOne(policy, body, solo, c);
            if c.player == p then
              && Agree(p, next, own)
              && next.results[|all.results|..] == own.results[|solo.results|..]
              && own.stock == solo.stock[p := own.stock[p]]
            else next.stock[p] == all.stock[p] && LogOf(p, next.log) == LogOf(p, all.log)
  {
    if c.player < |body| {
      var cost, impulses := Cost(c.action), Impulses(c.player, body[c.player], c.action);
      LogOfImpulses(p, c.player, body[c.player], c.action);
      if c.player == p {
        ChargeOwn(policy, p, all, solo, cost, impulses);
      } else {
        ChargeOther(policy, p, all, c.player, cost, impulses);
      }
    }
  }

  // ----- what a batch costs -----

  /** The costs of the player's actions that were answered with success. */
  ghost function Spending(p: nat, actions: seq<ClientAction>, results: seq<SpendResult>): nat
    requires |actions| == |results|
  {
    if actions == [] then 0 else
      var n := |actions| - 1;
      Spending(p, actions[..n], results[..n]) +
      if actions[n].player == p && results[n].SpendSuccess? then Cost(actions[n].action) else 0
  }

  /** The impulses of the actions that were answered with success: a catch has none. */
  ghost function Applied(body: seq<Heading>, actions: seq<ClientAction>, results: seq<SpendResult>): seq<Impulse>
    requires |actions| == |results|
  {
    if actions == [] then [] else
      var n := |actions| - 1;
      var p := actions[n].player;
      Applied(body, actions[..n], results[..n]) +
      if results[n].SpendSuccess? && p < |body| then Impulses(p, body[p], actions[n].action) else []
  }

  /** Whether an action is carried out, told from what its player has spent before. */
  ghost predicate Affordable(
      policy: Policy, stock: seq<Energy>, actions: seq<ClientAction>, results: seq<SpendResult>, i: nat)
    requires i < |actions| == |results|
  {
    var p, a := actions[i].player, actions[i].action;
    && p < |stock|
    && (a.Catch? || policy.minimum + Spending(p, actions[..i], results[..i]) + Cost(a) <= stock[p])
  }

  ghost predicate Accounted(
      policy: Policy, body: seq<Heading>, stock: seq<Energy>, actions: seq<ClientAction>, o: Outcome)
  {
    && |o.stock| == |stock| && |o.results| == |actions|
    && (forall p: nat | p < |stock| ::
          o.stock[p] == stock[p] as int - Spending(p, actions, o.results) as int)
    && (forall i: nat | i < |actions| ::
          o.results[i].SpendSuccess? <==> Affordable(policy, stock, actions, o.results, i))
    && o.log == Applied(body, actions, o.results)
  }

  /** Conservation: a batch takes from each stock exactly the costs of the player's successful actions, an action
      succeeds exactly when its player is on the roster and it catches or can be afforded above the minimum, and
      the impulses are those of the successful actions in order. An action out of range changes nothing else. */
  lemma {:induction false} BatchIsAccounted(
      policy: Policy, body: seq<Heading>, stock: seq<Energy>, actions: seq<ClientAction>)
    requires |body| == |stock|
    ensures Accounted(policy, body, stock, actions, ActAll(policy, body, stock, actions))
  {
    if actions != [] {
      var n := |actions| - 1;
      BatchIsAccounted(policy, body, stock, actions[..n]);
      AccountOne(policy, body, stock, actions, ActAll(policy, body, stock, actions[..n]));
    }
  }

  lemma AccountOne(
      policy: Policy, body: seq<Heading>, stock: seq<Energy>, actions: seq<ClientAction>, before: Outcome)
    requires |body| == |stock| && actions != [] && Accounted(policy, body, stock, actions[..|actions| - 1], before)
    ensures Accounted(policy, body, stock, actions, ActOne(policy, body, before, actions[|actions| - 1]))
  {
    var n := |actions| - 1;
    var next := ActOne(policy, body, before, actions[n]);
    assert next.results[..n] == before.results;
    forall i: nat | i < |actions|
      ensures next.results[i].SpendSuccess? <==> Affordable(policy, stock, actions, next.results, i)
    {
      if i < n {
        assert actions[..n][..i] == actions[..i] && next.results[..i] == before.results[..i];
        assert Affordable(policy, stock, actions[..n], before.results, i)
               <==> Affordable(policy, stock, actions, next.results, i);
      }
    }
  }

  /** No batch takes a stock below the minimum of the policy, and one that starts below it is left alone. */
  lemma {:induction false} NeverBelowMinimum(
      policy: Policy, body: seq<Heading>, p: nat, stock: seq<Energy>, actions: seq<ClientAction>)
    requires p < |body| == |stock|
    ensures var final := ActAll(policy, body, stock, actions).stock[p];
            && final <= stock[p]
            && (stock[p] >= policy.minimum ==> final >= policy.minimum)
            && (stock[p] < policy.minimum ==> final == stock[p])
  {
    if actions != [] {
      NeverBelowMinimum(policy, body, p, stock, actions[..|actions| - 1]);
    }
  }

  // ----- the code -----

  /** Stands for the physics engine: it records the impulses it is given. */
  class Physics {
    var log: seq<Impulse>

    constructor ()
      ensures log == []
    {
      log := [];
    }

    method ApplyLinearImpulse(player: nat, part: Part, target: Vec2)
      modifies this
      ensures log == old(log) + [Linear(player, part, target)]
    {
      log := log + [Linear(player, part, target)];
    }

    method ApplyAngularImpulse(player: nat, part: Part, velocity: real)
      modifies this
      ensures log == old(log) + [Angular(player, part, velocity)]
    {
      log := log + [Angular(player, part, velocity)];
    }
  }

  class ResultList {
    var items: seq<SpendResult>

    constructor ()
      ensures items == []
    {
      items := [];
    }

    method Clear()
      modifies this
      ensures items == []
    {
      items := [];
    }

    method Push(item: SpendResult)
      modifies this
      ensures items == old(items) + [item]
    {
      items := items + [item];
    }
  }

  method ActMoveFoot(
      inventory: Inventory, stock: array<Energy>, player: nat, physics: Physics, body: seq<Heading>,
      requested: Velocity)
    returns (result: SpendResult)
    requires player < stock.Length == |body|
    modifies stock, physics
    ensures var before := Outcome(old(stock[..]), [], old(physics.log));
            var o := ActOne(inventory.policy, body, before, ClientAction(MoveFoot(requested), player));
            stock[..] == o.stock && [result] == o.results && physics.log == o.log
  {
    var max := MOVE_FOOT_MAX_VELOCITY;
    var velocity := if requested > 0 then Min(requested, max) else Max(requested, -max);
    var cost := ToEnergy(LRound(Abs(velocity) as real / max as real * MOVE_FOOT_MAX_COST as real));
    assert cost == Cost(MoveFoot(requested));
    result := inventory.Spend(stock, player, cost);
    if result == SpendSuccess {
      var target := Target(body[player], velocity);
      physics.ApplyLinearImpulse(player, Foot, target);
    }
    assert physics.log
        == old(physics.log) + if result.SpendSuccess? then Impulses(player, body[player], MoveFoot(requested)) else [];
  }

  method ActRun(
      inventory: Inventory, stock: array<Energy>, player: nat, physics: Physics, body: seq<Heading>,
      requested: Velocity)
    returns (result: SpendResult)
    requires player < stock.Length == |body|
    modifies stock, physics
    ensures var before := Outcome(old(stock[..]), [], old(physics.log));
            var o := ActOne(inventory.policy, body, before, ClientAction(Run(requested), player));
            stock[..] == o.stock && [result] == o.results && physics.log == o.log
  {
    var velocity := if requested > 0 then Min(requested, RUN_MAX_FORWARD_VELOCITY)
                    else Max(requested, RUN_MAX_BACKWARD_VELOCITY);
    var cost := ToEnergy(if requested > 0 then ForwardCost(velocity) else BackwardCost(velocity));
    assert cost == Cost(Run(requested));
    result := inventory.Spend(stock, player, cost);
    if result == SpendSuccess {
      var target := Target(body[player], velocity);
      physics.ApplyLinearImpulse(player, Torso, target);
      physics.ApplyLinearImpulse(player, Head, target);
      physics.ApplyLinearImpulse(player, Foot, target);
    }
    assert physics.log
        == old(physics.log) + if result.SpendSuccess? then Impulses(player, body[player], Run(requested)) else [];
  }

  method ActTurnHead(
      inventory: Inventory, stock: array<Energy>, player: nat, physics: Physics, body: seq<Heading>,
      requested: Velocity)
    returns (result: SpendResult)
    requires player < stock.Length == |body|
    modifies stock, physics
    ensures var before := Outcome(old(stock[..]), [], old(physics.log));
            var o := ActOne(inventory.policy, body, before, ClientAction(TurnHead(requested), player));
            stock[..] == o.stock && [result] == o.results && physics.log == o.log
  {
    var max := TURN_HEAD_MAX_VELOCITY;
    var velocity := if requested > 0 then Min(requested, max) else Max(requested, -max);
    var cost := ToEnergy(LRound(Abs(velocity) as real / max as real * TURN_HEAD_MAX_COST as real));
    assert cost == Cost(TurnHead(requested));
    result := inventory.Spend(stock, player, cost);
    if result == SpendSuccess {
      physics.ApplyAngularImpulse(player, Head, Scaled(velocity));
    }
    assert physics.log
        == old(physics.log) + if result.SpendSuccess? then Impulses(player, body[player], TurnHead(requested)) else [];
  }

  method ActTurnTorso(
      inventory: Inventory, stock: array<Energy>, player: nat, physics: Physics, body: seq<Heading>,
      requested: Velocity)
    returns (result: SpendResult)
    requires player < stock.Length == |body|
    modifies stock, physics
    ensures var before := Outcome(old(stock[..]), [], old(physics.log));
            var o := ActOne(inventory.policy, body, before, ClientAction(TurnTorso(requested), player));
            stock[..] == o.stock && [result] == o.results && physics.log == o.log
  {
    var max := TURN_TORSO_MAX_VELOCITY;
    var velocity := if requested > 0 then Min(requested, max) else Max(requested, -max);
    var cost := ToEnergy(LRound(Abs(velocity) as real / max as real * TURN_TORSO_MAX_COST as real));
    assert cost == Cost(TurnTorso(requested));
    result := inventory.Spend(stock, player, cost);
    if result == SpendSuccess {
      physics.ApplyAngularImpulse(player, Torso, Scaled(requested));
      physics.ApplyAngularImpulse(player, Foot, Scaled(requested));
    }
    assert physics.log
        == old(physics.log) + if result.SpendSuccess? then Impulses(player, body[player], TurnTorso(requested)) else [];
  }

  method ActAny(
      inventory: Inventory, stock: array<Energy>, physics: Physics, body: seq<Heading>, c: ClientAction)
    returns (result: SpendResult)
    requires c.player < stock.Length == |body|
    modifies stock, physics
    ensures var o := ActOne(inventory.policy, body, Outcome(old(stock[..]), [], old(physics.log)), c);
            stock[..] == o.stock && [result] == o.results && physics.log == o.log
  {
    match c.action {
      case MoveFoot(v) => result := ActMoveFoot(inventory, stock, c.player, physics, body, v);
      case Catch(_) => result := SpendSuccess;
      case Run(v) => result := ActRun(inventory, stock, c.player, physics, body, v);
      case TurnHead(v) => result := ActTurnHead(inventory, stock, c.player, physics, body, v);
      case TurnTorso(v) => result := ActTurnTorso(inventory, stock, c.player, physics, body, v);
    }
  }

  /** The batch of one frame: one answer per action, in a list that is cleared first. */
  method Act(
      inventory: Inventory, stock: array<Energy>, physics: Physics, body: seq<Heading>,
      actions: seq<ClientAction>, results: ResultList)
    requires |body| == stock.Length
    modifies stock, physics, results
    ensures var o := ActAll(inventory.policy, body, old(stock[..]), actions);
            stock[..] == o.stock && results.items == o.results && physics.log == old(physics.log) + o.log
  {
    results.Clear();
    ghost var o := ActAll(inventory.policy, body, stock[..], []);
    for i := 0 to |actions|
      invariant o == ActAll(inventory.policy, body, old(stock[..]), actions[..i])
      invariant stock[..] == o.stock && results.items == o.results && physics.log == old(physics.log) + o.log
    {
      var c := actions[i];
      assert actions[..i + 1][..i] == actions[..i];
      o := ActOne(inventory.policy, body, o, c);
      if c.player >= stock.Length {
        results.Push(Understock);
        continue;
      }
      var result := ActAny(inventory, stock, physics, body, c);
      results.Push(result);
    }
    assert actions[..|actions|] == actions;
  }
}
