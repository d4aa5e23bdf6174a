/** `core/evolution/soft.py`, `evolve_ethos`: bounded drift of the value baseline. */
module Ethos {
  const DIMENSIONS := ["truth", "caution", "continuity", "curiosity", "care"]

  // ---------- Rounding to four decimals ----------

  /** The nearest integer, ties to even. */
  function RoundInt(x: real): int {
    var f := x.Floor;
    var rest := x - f as real;
    if rest < 0.5 then f else if rest > 0.5 then f + 1 else if f % 2 == 0 then f else f + 1
  }

  function Round4(x: real): real {
    RoundInt(x * 10000.0) as real / 10000.0
  }

  function Grid(n: int): real {
    n as real / 10000.0
  }

  ghost predicate OnGrid(x: real) {
    x == Grid((x * 10000.0).Floor)
  }

  lemma {:induction false} GridIsOnGrid(n: int)
    ensures OnGrid(Grid(n)) && Round4(Grid(n)) == Grid(n)
  {
    assert Grid(n) * 10000.0 == n as real;
    assert (n as real).Floor == n;
  }

  lemma {:induction false} RoundIntMonotone(x: real, y: real)
    requires x <= y
    ensures RoundInt(x) <= RoundInt(y)
  {
  }

  lemma {:induction false} RoundMonotone(x: real, y: real)
    requires x <= y
    ensures Round4(x) <= Round4(y)
  {
    RoundIntMonotone(x * 10000.0, y * 10000.0);
  }

  lemma {:induction false} RoundFixesGrid(x: real)
    requires OnGrid(x)
    ensures Round4(x) == x
  {
    GridIsOnGrid((x * 10000.0).Floor);
  }

  lemma {:induction false} RoundsToGrid(x: real)
    ensures OnGrid(Round4(x))
  {
    GridIsOnGrid(RoundInt(x * 10000.0));
  }

  // ---------- One dimension ----------

  function Clamp(x: real): real {
    var low := if x < 1.0 then x else 1.0;
    if low > 0.0 then low else 0.0
  }

  /** Step limit, then the boundary guard, then the unit interval. */
  function Unrounded(was: real, proposed: real, maxDelta: real, guarded: bool): real {
    var stepped :=
      if (if proposed >= was then proposed - was else was - proposed) > maxDelta
      then was + maxDelta * (if proposed > was then 1.0 else -1.0)
      else proposed;
    Clamp(if guarded && stepped < was then was else stepped)
  }

  function NewValue(was: real, proposed: real, maxDelta: real, guarded: bool): real {
    Round4(Unrounded(was, proposed, maxDelta, guarded))
  }

  ghost predicate InRange(x: real) {
    0.0 <= x <= 1.0 && OnGrid(x)
  }

  lemma {:induction false} UnroundedBounded(was: real, proposed: real, maxDelta: real, guarded: bool)
    requires 0.0 <= was <= 1.0 && maxDelta >= 0.0
    ensures var x := Unrounded(was, proposed, maxDelta, guarded);
            0.0 <= x <= 1.0 && was - maxDelta <= x <= was + maxDelta && (guarded ==> x >= was)
  {
  }

  lemma {:induction false} RoundBetween(low: real, x: real, high: real)
    requires low <= x <= high && OnGrid(low) && OnGrid(high)
    ensures low <= Round4(x) <= high
  {
    RoundFixesGrid(low);
    RoundFixesGrid(high);
    RoundMonotone(low, x);
    RoundMonotone(x, high);
  }

  /** From a value and a step limit on the grid: the new value is on the grid and in the interval, no further than the
      limit, and not lower where a boundary guards it. */
  lemma {:induction false} StepBounded(was: real, proposed: real, maxDelta: real, guarded: bool)
    requires InRange(was) && maxDelta >= 0.0 && OnGrid(maxDelta)
    ensures var now := NewValue(was, proposed, maxDelta, guarded);
            InRange(now) && was - maxDelta <= now <= was + maxDelta && (guarded ==> now >= was)
  {
    var x := Unrounded(was, proposed, maxDelta, guarded);
    UnroundedBounded(was, proposed, maxDelta, guarded);
    GridArithmetic(was, maxDelta);
    GridIsOnGrid(0);
    GridIsOnGrid(10000);
    assert Grid(0) == 0.0 && Grid(10000) == 1.0;
    hide Round4, Unrounded, OnGrid;
    RoundsToGrid(x);
    RoundBetween(was - maxDelta, x, was + maxDelta);
    RoundBetween(0.0, x, 1.0);
    if guarded {
      RoundBetween(was, x, 1.0);
    }
  }

  lemma {:induction false} RoundNear(x: real)
    ensures x - 0.00005 <= Round4(x) <= x + 0.00005
  {
    var r := RoundInt(x * 10000.0) as real;
    assert x * 10000.0 - 0.5 <= r <= x * 10000.0 + 0.5;
  }

  /** What becomes of a proposal: one within the limit is taken, up to rounding; one beyond it moves the value by just
      the limit towards it; and a guarded value stays where it is when a lower one is proposed. */
  lemma {:induction false} StepExactly(was: real, proposed: real, maxDelta: real, guarded: bool)
    requires InRange(was) && maxDelta >= 0.0 && OnGrid(maxDelta) && 0.0 <= proposed <= 1.0
    ensures var now := NewValue(was, proposed, maxDelta, guarded);
            if guarded && proposed < was then now == was
            else if proposed > was + maxDelta then now == was + maxDelta
            else if proposed < was - maxDelta then now == was - maxDelta
            else proposed - 0.00005 <= now <= proposed + 0.00005 && (OnGrid(proposed) ==> now == proposed)
  {
    var x := Unrounded(was, proposed, maxDelta, guarded);
    GridArithmetic(was, maxDelta);
    RoundNear(x);
    assert x == if guarded && proposed < was then was
                else if proposed > was + maxDelta then was + maxDelta
                else if proposed < was - maxDelta then was - maxDelta else proposed;
    hide Unrounded, Round4, OnGrid;
    if OnGrid(x) {
      RoundFixesGrid(x);
    }
  }

  lemma {:induction false} GridArithmetic(x: real, y: real)
    requires OnGrid(x) && OnGrid(y)
    ensures OnGrid(x + y) && OnGrid(x - y)
  {
    var a, b := (x * 10000.0).Floor, (y * 10000.0).Floor;
    GridIsOnGrid(a + b);
    GridIsOnGrid(a - b);
    assert x + y == Grid(a + b) && x - y == Grid(a - b);
  }

  // ---------- The baseline ----------

  type Values = map<string, real>

  /** A dimension's current value: the stored one, or the configured seed. */
  function Current(stored: Values, seed: Values, dim: string): real
    requires dim in seed
  {
    if dim in stored then stored[dim] else seed[dim]
  }

  predicate Complete(v: Values) {
    forall i :: 0 <= i < |DIMENSIONS| ==> DIMENSIONS[i] in v
  }

  /** Every dimension is proposed, within the unit interval. */
  predicate Acceptable(proposed: Values) {
    forall i :: 0 <= i < |DIMENSIONS| ==> DIMENSIONS[i] in proposed && 0.0 <= proposed[DIMENSIONS[i]] <= 1.0
  }

  /** The configuration: seed values, step limit, and the dimensions some boundary of the constitution names. */
  datatype Config = Config(seed: Values, maxDelta: real, guarded: string -> bool)

  function Next(cfg: Config, stored: Values, proposed: Values, dim: string): real
    requires dim in cfg.seed && dim in proposed
  {
    NewValue(Current(stored, cfg.seed, dim), proposed[dim], cfg.maxDelta, cfg.guarded(dim))
  }

  function Evolved(cfg: Config, stored: Values, proposed: Values): Values
    requires Complete(cfg.seed)
  {
    if !Acceptable(proposed) then stored
    else map i | 0 <= i < |DIMENSIONS| :: DIMENSIONS[i] := Next(cfg, stored, proposed, DIMENSIONS[i])
  }

  class EthosBaseline {
    const cfg: Config
    var stored: Values

    constructor (cfg: Config)
      ensures this.cfg == cfg && stored == map[]
    {
      this.cfg, stored := cfg, map[];
    }

    /** The validation loop: the first missing or out-of-range dimension ends it with nothing written. */
    method EvolveEthos(proposed: Values) returns (success: bool)
      requires Complete(cfg.seed)
      modifies this
      ensures success <==> Acceptable(proposed)
      ensures stored == Evolved(cfg, old(stored), proposed)
    {
      var validated: Values := map[];
      for i := 0 to |DIMENSIONS|
        invariant forall k :: 0 <= k < i ==> DIMENSIONS[k] in proposed && 0.0 <= proposed[DIMENSIONS[k]] <= 1.0
        invariant forall d :: d in validated <==> d in DIMENSIONS[..i]
        invariant forall k :: 0 <= k < i ==>
          DIMENSIONS[k] in validated && validated[DIMENSIONS[k]] == Next(cfg, stored, proposed, DIMENSIONS[k])
        invariant stored == old(stored)
      {
        var dim := DIMENSIONS[i];
        if dim !in proposed {
          return false;
        }
        var newVal := proposed[dim];
        if !(0.0 <= newVal <= 1.0) {
          return false;
        }
        var oldVal := Current(stored, cfg.seed, dim);
        if (if newVal >= oldVal then newVal - oldVal else oldVal - newVal) > cfg.maxDelta {
          newVal := oldVal + cfg.maxDelta * (if newVal > oldVal then 1.0 else -1.0);
        }
        if cfg.guarded(dim) && newVal < oldVal {
          newVal := oldVal;
        }
        validated := validated[dim := Round4(Clamp(newVal))];
      }
      assert Acceptable(proposed);
      assert validated == Evolved(cfg, stored, proposed);
      stored := validated;
      success := true;
    }
  }

  /** A baseline that is evolved holds, for every dimension, the value its proposal leads to. */
  lemma {:induction false} EvolvedExactly(cfg: Config, stored: Values, proposed: Values, dim: string)
    requires Complete(cfg.seed) && Acceptable(proposed) && dim in DIMENSIONS
    requires InRange(Current(stored, cfg.seed, dim)) && cfg.maxDelta >= 0.0 && OnGrid(cfg.maxDelta)
    ensures dim in Evolved(cfg, stored, proposed) && dim in proposed
    ensures var was, now := Current(stored, cfg.seed, dim), Evolved(cfg, stored, proposed)[dim];
            if cfg.guarded(dim) && proposed[dim] < was then now == was
            else if proposed[dim] > was + cfg.maxDelta then now == was + cfg.maxDelta
            else if proposed[dim] < was - cfg.maxDelta then now == was - cfg.maxDelta
            else proposed[dim] - 0.00005 <= now <= proposed[dim] + 0.00005
  {
    hide NewValue, OnGrid;
    var i :| 0 <= i < |DIMENSIONS| && DIMENSIONS[i] == dim;
    StepExactly(Current(stored, cfg.seed, dim), proposed[dim], cfg.maxDelta, cfg.guarded(dim));
  }

  // ---------- Any number of evolutions ----------

  function After(cfg: Config, stored: Values, proposals: seq<Values>): Values
    requires Complete(cfg.seed)
  {
    if proposals == [] then stored
    else Evolved(cfg, After(cfg, stored, proposals[..|proposals| - 1]), proposals[|proposals| - 1])
  }

  function Accepted(proposals: seq<Values>): nat {
    if proposals == [] then 0
    else Accepted(proposals[..|proposals| - 1]) + if Acceptable(proposals[|proposals| - 1]) then 1 else 0
  }

  lemma {:induction false} EvolvedAt(cfg: Config, stored: Values, proposed: Values, dim: string)
    requires Complete(cfg.seed) && dim in DIMENSIONS
    ensures Current(Evolved(cfg, stored, proposed), cfg.seed, dim) ==
            if Acceptable(proposed) then Next(cfg, stored, proposed, dim) else Current(stored, cfg.seed, dim)
  {
    var i :| 0 <= i < |DIMENSIONS| && DIMENSIONS[i] == dim;
    if Acceptable(proposed) {
      assert dim in Evolved(cfg, stored, proposed);
    }
  }

  /** How far `n` steps may lead. */
  function Reach(n: nat, maxDelta: real): real {
    n as real * maxDelta
  }

  lemma {:induction false} ReachStep(n: nat, maxDelta: real)
    ensures Reach(n + 1, maxDelta) == Reach(n, maxDelta) + maxDelta && Reach(0, maxDelta) == 0.0
  {
  }

  /** Over every sequence of proposals: each dimension stays in the unit interval, drifts at most one step limit per
      accepted proposal, and never falls where it is guarded. */
  lemma {:induction false} DriftBounded(cfg: Config, stored: Values, proposals: seq<Values>, dim: string)
    requires Complete(cfg.seed) && dim in DIMENSIONS
    requires InRange(Current(stored, cfg.seed, dim)) && cfg.maxDelta >= 0.0 && OnGrid(cfg.maxDelta)
    ensures var was, now := Current(stored, cfg.seed, dim), Current(After(cfg, stored, proposals), cfg.seed, dim);
            var reach := Reach(Accepted(proposals), cfg.maxDelta);
            InRange(now) && was - reach <= now <= was + reach && (cfg.guarded(dim) ==> now >= was)
  {
    hide Evolved, Next, NewValue, InRange, OnGrid, Reach, Acceptable;
    if proposals == [] {
      ReachStep(0, cfg.maxDelta);
    } else {
      var front, last := proposals[..|proposals| - 1], proposals[|proposals| - 1];
      DriftBounded(cfg, stored, front, dim);
      var before := After(cfg, stored, front);
      EvolvedAt(cfg, before, last, dim);
      if Acceptable(last) {
        NextBounded(cfg, before, last, dim);
        ReachStep(Accepted(front), cfg.maxDelta);
      }
    }
  }

  lemma {:induction false} NextBounded(cfg: Config, stored: Values, proposed: Values, dim: string)
    requires Complete(cfg.seed) && dim in DIMENSIONS && Acceptable(proposed)
    requires InRange(Current(stored, cfg.seed, dim)) && cfg.maxDelta >= 0.0 && OnGrid(cfg.maxDelta)
    ensures dim in proposed
    ensures var was, now := Current(stored, cfg.seed, dim), Next(cfg, stored, proposed, dim);
            InRange(now) && was - cfg.maxDelta <= now <= was + cfg.maxDelta && (cfg.guarded(dim) ==> now >= was)
  {
    StepBounded(Current(stored, cfg.seed, dim), proposed[dim], cfg.maxDelta, cfg.guarded(dim));
  }
}
