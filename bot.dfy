/**
 * `executeTurn`: choose the target list by the character's health, order it
 * by distance from the character, and act on the first target the shot
 * search finds a plan for.
 *
 * The calls the bot makes on its `Controller` are returned as a list of
 * actions, in the order the bot issues them.
 */
module Bot {
  import opened Wrappers
  import opened World
  import opened Targets
  import opened ShotSearch

  /** At or below this health the bot goes for health boxes instead of enemies. */
  const HEALTH_THRESHOLD: int := 100 - 35

  /** The `maxIterations` `executeTurn` passes to `calculateShootInfo`. */
  const MAX_ITERATIONS: int := 200

  datatype WeaponType = WaterPistol

  /** A call on the `Controller`. */
  datatype Action = SelectWeapon(weapon: WeaponType) | Move(dx: int) | Aim(angle: real, strength: real) | Shoot

  /** The target list before sorting: health boxes when health is low, living enemies otherwise. */
  function CandidateTargets(gs: GameState, character: Character): seq<Vec> {
    if character.health <= HEALTH_THRESHOLD then HealthBoxPositions(gs) else EnemyPositions(gs, character.team)
  }

  /** The search `executeTurn` runs on one target. */
  function PlanFor(gs: GameState, b: Ballistics, character: Character): Vec -> Option<ShootInfo> {
    target => ShotPlan(gs, b, character, target, MAX_ITERATIONS)
  }

  /** The plan for the first target, in list order, for which `plan` finds one. */
  function FirstPlan(plan: Vec -> Option<ShootInfo>, targets: seq<Vec>): Option<ShootInfo> {
    if targets == [] then None
    else if plan(targets[0]).Some? then plan(targets[0])
    else FirstPlan(plan, targets[1..])
  }

  /** What the bot does with a plan: select the pistol, then move, aim and shoot when there is a plan. */
  function TurnActions(plan: Option<ShootInfo>): seq<Action> {
    [SelectWeapon(WaterPistol)] +
    match plan
    case None => []
    case Some(info) => [Move(info.moveX), Aim(info.angle, info.strength), Shoot]
  }

  /** The targets in the order `executeTurn` tries them. */
  function OrderedTargets(gs: GameState, character: Character): seq<Vec> {
    SortByDistance(CandidateTargets(gs, character), character.pos)
  }

  /** The actions of one turn. */
  function Turn(gs: GameState, b: Ballistics, character: Character): seq<Action> {
    TurnActions(FirstPlan(PlanFor(gs, b, character), OrderedTargets(gs, character)))
  }

  /**
   * `executeTurn`: the pistol is always selected first; move, aim and shoot
   * follow exactly when some target has a plan.
   */
  method ExecuteTurn(gs: GameState, b: Ballistics, character: Character) returns (actions: seq<Action>)
    requires gs.Valid()
    ensures actions == Turn(gs, b, character)
    ensures actions[0] == SelectWeapon(WaterPistol)
    ensures |actions| == 1 || |actions| == 4
    ensures |actions| == 4 <==>
            exists k :: 0 <= k < |OrderedTargets(gs, character)| &&
                        ShotPlan(gs, b, character, OrderedTargets(gs, character)[k], MAX_ITERATIONS).Some?
  {
    var targets;
    if character.health <= HEALTH_THRESHOLD {
      targets := FindHealthBoxes(gs);
    } else {
      targets := FindEnemies(gs, character);
    }
    targets := SortByDistance(targets, character.pos);

    actions := [SelectWeapon(WaterPistol)];
    var optimal := FindPlan(gs, b, character, targets);
    if optimal.Some? {
      var plan := optimal.value;
      actions := actions + [Move(plan.moveX), Aim(plan.angle, plan.strength), Shoot];
    }
    FirstPlanFound(PlanFor(gs, b, character), targets);
  }

  /** The target loop of `executeTurn`: the plan of the first target, in order, that has one. */
  method FindPlan(gs: GameState, b: Ballistics, character: Character, targets: seq<Vec>)
    returns (optimal: Option<ShootInfo>)
    ensures optimal == FirstPlan(PlanFor(gs, b, character), targets)
  {
    optimal := None;
    ghost var plan := PlanFor(gs, b, character);
    var k := 0;
    assert targets[k..] == targets;
    while k < |targets|
      invariant 0 <= k <= |targets|
      invariant optimal == None
      invariant FirstPlan(plan, targets) == FirstPlan(plan, targets[k..])
    {
      var info := CalculateShootInfo(gs, b, character, targets[k], MAX_ITERATIONS);
      assert info == plan(targets[k]);
      assert targets[k..][1..] == targets[k + 1..];
      if info.None? {
        k := k + 1;
        continue;
      }
      optimal := info;
      break;
    }
  }

  /**
   * The plan used is that of the first target with one: every earlier
   * target has none; and there is no plan exactly when no target has one.
   */
  lemma {:induction false} FirstPlanFound(plan: Vec -> Option<ShootInfo>, targets: seq<Vec>)
    ensures FirstPlan(plan, targets).None? <==> forall k :: 0 <= k < |targets| ==> plan(targets[k]).None?
    ensures FirstPlan(plan, targets).Some? ==>
            exists k :: 0 <= k < |targets| && FirstPlan(plan, targets) == plan(targets[k]) &&
                        forall j :: 0 <= j < k ==> plan(targets[j]).None?
  {
    if targets != [] {
      var rest := targets[1..];
      FirstPlanFound(plan, rest);
      if plan(targets[0]).None? {
        if FirstPlan(plan, rest).Some? {
          var k :| 0 <= k < |rest| && FirstPlan(plan, rest) == plan(rest[k]) &&
                   forall j :: 0 <= j < k ==> plan(rest[j]).None?;
          assert targets[k + 1] == rest[k];
          forall j | 0 <= j < k + 1 ensures plan(targets[j]).None? {
            if j > 0 {
              assert targets[j] == rest[j - 1];
            }
          }
        } else {
          forall k | 0 <= k < |targets| ensures plan(targets[k]).None? {
            if k > 0 {
              assert targets[k] == rest[k - 1];
            }
          }
        }
      }
    }
  }

  /**
   * Below the health threshold the targets are exactly the corners of the
   * in-board health-box cells; otherwise they are exactly the positions of
   * the living characters of the other teams. The two kinds are never mixed.
   */
  lemma CandidateTargetsExact(gs: GameState, character: Character)
    requires gs.Valid()
    ensures character.health <= HEALTH_THRESHOLD ==>
            forall p :: p in CandidateTargets(gs, character) <==>
                        exists c :: IsHealthBoxCell(gs, c) && p == TileToWorld(c)
    ensures character.health > HEALTH_THRESHOLD ==>
            forall p :: p in CandidateTargets(gs, character) <==>
                        exists r :: IsLiveEnemy(gs, character.team, r) && p == PositionOf(gs, r)
  {
    if character.health <= HEALTH_THRESHOLD {
      HealthBoxPositionsMembers(gs);
    } else {
      EnemyPositionsMembers(gs, character.team);
    }
  }

}
