/** The boss-fight example's healing action and its end-of-game check. */
module Malenia {
  import opened Ecs

  /** The run event: the action entity that runs and the agent it runs for. */
  datatype OnRun = OnRun(action: Entity, origin: Entity)

  /** What `try_heal_self` does: it panics when the origin lacks `Health` or
      `HealingPotions`, otherwise it triggers a result on the action. */
  datatype Outcome = MissingOrigin | Triggered(action: Entity, result: RunResult)

  /** Health is `f32`, modelled as a real; a potion count is a `usize`. */
  datatype Vitals = Vitals(health: real, potions: nat)

  const HEAL_BELOW: real := 50.0
  const HEAL_AMOUNT: real := 30.0

  /** One healing decision: below 50 health with a potion left, drink it for
      30 health and succeed; otherwise fail and change nothing. */
  function Heal(v: Vitals): (r: (Vitals, RunResult))
  {
    if v.health < HEAL_BELOW && v.potions > 0 then (Vitals(v.health + HEAL_AMOUNT, v.potions - 1), Success)
    else (v, Failure)
  }

  /** Healing succeeds exactly when it is needed and possible, and then costs one potion for 30 health. */
  lemma HealSpec(v: Vitals)
    ensures Heal(v).1 == Success <==> v.health < HEAL_BELOW && v.potions > 0
    ensures Heal(v).1 == Success ==> Heal(v).0 == Vitals(v.health + 30.0, v.potions - 1)
    ensures Heal(v).1 == Failure ==> Heal(v).0 == v
  {
  }

  /** `n` healing attempts without damage in between: the potions drunk and
      the health gained both count the successes, so no more potions are
      used than there were and the count never goes below zero. */
  function Attempts(v: Vitals, n: nat): (r: (Vitals, nat))
    decreases n
  {
    if n == 0 then (v, 0)
    else
      var prev := Attempts(v, n - 1);
      var step := Heal(prev.0);
      (step.0, prev.1 + if step.1 == Success then 1 else 0)
  }

  lemma {:induction false} AttemptsConserve(v: Vitals, n: nat)
    ensures var (w, k) := Attempts(v, n);
      && k + w.potions == v.potions
      && w.health == v.health + k as real * HEAL_AMOUNT
      && k <= n
    decreases n
  {
    if n > 0 {
      AttemptsConserve(v, n - 1);
    }
  }

  /** The vitals of every entity carrying both `Health` and `HealingPotions`. */
  class Arena {
    var vitals: map<Entity, Vitals>

    constructor (vitals0: map<Entity, Vitals>)
      ensures vitals == vitals0
    {
      vitals := vitals0;
    }

    /** `try_heal_self`: looks the vitals up on the origin, not the action. */
    method TryHealSelf(ev: OnRun) returns (out: Outcome)
      modifies this
      ensures ev.origin !in old(vitals) ==> out == MissingOrigin && vitals == old(vitals)
      ensures ev.origin in old(vitals) ==>
        && out == Triggered(ev.action, Heal(old(vitals)[ev.origin]).1)
        && vitals == old(vitals)[ev.origin := Heal(old(vitals)[ev.origin]).0]
    {
      if ev.origin !in vitals {
        return MissingOrigin;
      }
      var v := vitals[ev.origin];
      if v.health < 50.0 && v.potions > 0 {
        vitals := vitals[ev.origin := Vitals(v.health + 30.0, v.potions - 1)];
        out := Triggered(ev.action, Success);
      } else {
        out := Triggered(ev.action, Failure);
      }
    }
  }

  // ---- End of the game ----

  datatype Verdict = YouWin | YouLose

  /** One entity seen by `health_handler`: its health, its name, and whether
      its health changed since the handler last ran. */
  datatype Fighter = Fighter(health: real, name: string, changed: bool)

  /** The verdict messages and the `AppExit` events, one per fallen fighter:
      a fallen Malenia means a win, any other fallen fighter a loss. */
  function Verdicts(fighters: seq<Fighter>): (r: seq<Verdict>)
    decreases |fighters|
  {
    if fighters == [] then []
    else
      var f := fighters[|fighters| - 1];
      Verdicts(fighters[..|fighters| - 1])
        + if !f.changed || f.health > 0.0 then [] else [if f.name == "Malenia" then YouWin else YouLose]
  }

  function Fallen(fighters: seq<Fighter>): nat
    decreases |fighters|
  {
    if fighters == [] then 0
    else
      var f := fighters[|fighters| - 1];
      Fallen(fighters[..|fighters| - 1]) + if f.changed && f.health <= 0.0 then 1 else 0
  }

  /** Fighters still standing, or whose health did not change, produce nothing;
      every changed fighter at or below zero produces exactly one verdict. */
  lemma {:induction false} VerdictsCount(fighters: seq<Fighter>)
    ensures |Verdicts(fighters)| == Fallen(fighters)
    ensures (forall i :: 0 <= i < |fighters| ==> !fighters[i].changed || fighters[i].health > 0.0) ==> Verdicts(fighters) == []
    decreases |fighters|
  {
    if fighters != [] {
      VerdictsCount(fighters[..|fighters| - 1]);
    }
  }

  /** `health_handler`, over the query in iteration order; returns the
      verdicts and the number of exit events sent. */
  method HealthHandler(fighters: seq<Fighter>) returns (verdicts: seq<Verdict>, exits: nat)
    ensures verdicts == Verdicts(fighters)
    ensures exits == |verdicts|
  {
    verdicts, exits := [], 0;
    var i := 0;
    while i < |fighters|
      invariant 0 <= i <= |fighters|
      invariant verdicts == Verdicts(fighters[..i]) && exits == |verdicts|
    {
      assert fighters[..i + 1][..i] == fighters[..i];
      var f := fighters[i];
      i := i + 1;
      if !f.changed || f.health > 0.0 {
        continue;
      } else if f.name == "Malenia" {
        verdicts := verdicts + [YouWin];
      } else {
        verdicts := verdicts + [YouLose];
      }
      exits := exits + 1;
    }
    assert fighters[..i] == fighters;
  }
}
