/**
 * The fixed-timestep scheduler of src/app.rs. Each frame adds the frame
 * time, in ticks, to an accumulator, runs the whole ticks it holds (at most
 * MAX_TICKS_PER_FRAME of them), and keeps only the fractional part. Each
 * tick steps the physics world once.
 *
 * `f32` arithmetic is modelled with `real`, without rounding; the `as u32`
 * cast and the `%` remainder are written out as Rust defines them.
 */
module Application {
  import opened Keys

  /** `App::FIXED_TICKS_PER_SEC`. */
  const FIXED_TICKS_PER_SEC: real := 60.0
  /** `App::FIXED_DELTA_TIME`: the length of one tick, in seconds. */
  const FIXED_DELTA_TIME: real := 1.0 / FIXED_TICKS_PER_SEC
  /** `App::MAX_TICKS_PER_FRAME`. */
  const MAX_TICKS_PER_FRAME: nat := 5

  const U32_MAX: nat := 0xFFFF_FFFF

  function Min(a: nat, b: nat): nat
  {
    if a <= b then a else b
  }

  /** The float-to-integer cast `x as u32`: rounds toward zero and saturates at 0 and at U32_MAX. */
  function AsU32(x: real): (n: nat)
    ensures n <= U32_MAX
    ensures x <= 0.0 ==> n == 0
    ensures x >= U32_MAX as real ==> n == U32_MAX
    ensures 0.0 <= x < U32_MAX as real + 1.0 ==> n == x.Floor
  {
    if x < 1.0 then 0
    else if x >= U32_MAX as real then U32_MAX
    else x.Floor
  }

  /** The float remainder `x % 1.0`: `x` less its integer part, taking the sign of `x`. */
  function RemOne(x: real): (r: real)
    ensures x >= 0.0 ==> 0.0 <= r < 1.0 && r == x - x.Floor as real
    ensures x < 0.0 ==> -1.0 < r <= 0.0
    ensures (x - r).Floor as real == x - r
  {
    if x >= 0.0 then
      var whole := x.Floor;
      assert (whole as real).Floor == whole;
      x - whole as real
    else
      var whole := -((-x).Floor);
      assert (whole as real).Floor == whole;
      x - whole as real
  }

  /** What one call of `check_fixed_tick` does: the ticks it runs and the accumulator it leaves. */
  datatype Frame = Frame(ticks: nat, carry: real)

  /**
   * `check_fixed_tick` from accumulator `acc` with frame time `frameTime`.
   * It never runs more than MAX_TICKS_PER_FRAME ticks; for a non-negative
   * total it runs the whole ticks owed, up to that cap, and keeps the
   * fractional part in [0, 1).
   */
  function Advance(acc: real, frameTime: real): (f: Frame)
    ensures f.ticks <= MAX_TICKS_PER_FRAME
    ensures var total := acc + frameTime * FIXED_TICKS_PER_SEC;
      total >= 0.0 ==>
        && f.ticks == Min(total.Floor, MAX_TICKS_PER_FRAME)
        && 0.0 <= f.carry < 1.0
        && f.carry == total - total.Floor as real
  {
    var total := acc + frameTime * FIXED_TICKS_PER_SEC;
    Frame(Min(AsU32(total), MAX_TICKS_PER_FRAME), RemOne(total))
  }

  /** Whether `check_fixed_tick` hits the cap: more whole ticks are owed than it may run. */
  predicate Clamped(acc: real, frameTime: real)
  {
    (acc + frameTime * FIXED_TICKS_PER_SEC).Floor > MAX_TICKS_PER_FRAME as int
  }

  /** Below the cap nothing is lost: the ticks run plus the carry are exactly what was owed. */
  lemma UnclampedKeepsEveryTick(acc: real, frameTime: real)
    requires acc + frameTime * FIXED_TICKS_PER_SEC >= 0.0 && !Clamped(acc, frameTime)
    ensures Advance(acc, frameTime).ticks as real + Advance(acc, frameTime).carry
            == acc + frameTime * FIXED_TICKS_PER_SEC
  {
  }

  /**
   * At the cap, only MAX_TICKS_PER_FRAME ticks run and only the fractional
   * part is kept: the whole ticks owed beyond the cap, at least one, are
   * dropped instead of carried to the next frame.
   */
  lemma ClampDropsBacklog(acc: real, frameTime: real)
    requires acc + frameTime * FIXED_TICKS_PER_SEC >= 0.0 && Clamped(acc, frameTime)
    ensures var total := acc + frameTime * FIXED_TICKS_PER_SEC;
      var f := Advance(acc, frameTime);
      && f.ticks == MAX_TICKS_PER_FRAME
      && 0.0 <= f.carry < 1.0
      && total - (f.ticks as real + f.carry) == (total.Floor - MAX_TICKS_PER_FRAME) as real
      && total - (f.ticks as real + f.carry) >= 1.0
  {
  }

  /** A one-second stall owes 60 ticks: 5 run and the other 55 are dropped. */
  lemma OneSecondStall()
    ensures Advance(0.0, 1.0) == Frame(5, 0.0)
  {
    assert (0.0 + 1.0 * FIXED_TICKS_PER_SEC).Floor == 60;
  }

  /** A frame lasting FIXED_DELTA_TIME runs exactly one tick and keeps the accumulator. */
  lemma OneTickPerDeltaTime(acc: real)
    requires 0.0 <= acc < 1.0
    ensures Advance(acc, FIXED_DELTA_TIME) == Frame(1, acc)
  {
    assert acc + FIXED_DELTA_TIME * FIXED_TICKS_PER_SEC == acc + 1.0;
    assert (acc + 1.0).Floor == 1;
  }

  // ---------------------------------------------------------------------
  // Sequences of frames

  /** The frame times added up, in seconds. */
  function Sum(frameTimes: seq<real>): real
  {
    if frameTimes == [] then 0.0 else frameTimes[0] + Sum(frameTimes[1..])
  }

  /** `check_fixed_tick` once per frame: the ticks run in all, and the final accumulator. */
  function Run(acc: real, frameTimes: seq<real>): Frame
    decreases |frameTimes|
  {
    if frameTimes == [] then Frame(0, acc)
    else
      var first := Advance(acc, frameTimes[0]);
      var rest := Run(first.carry, frameTimes[1..]);
      Frame(first.ticks + rest.ticks, rest.carry)
  }

  /** No call of the run hits the cap. */
  predicate NeverClamped(acc: real, frameTimes: seq<real>)
    decreases |frameTimes|
  {
    frameTimes == [] ||
    (!Clamped(acc, frameTimes[0]) && NeverClamped(Advance(acc, frameTimes[0]).carry, frameTimes[1..]))
  }

  /**
   * Whatever the frame times, n frames run at most n * MAX_TICKS_PER_FRAME
   * ticks in all; each frame's own cap is `Advance`'s first postcondition.
   */
  lemma {:induction false} RunTicksBounded(acc: real, frameTimes: seq<real>)
    ensures Run(acc, frameTimes).ticks <= MAX_TICKS_PER_FRAME * |frameTimes|
    decreases |frameTimes|
  {
    if frameTimes != [] {
      RunTicksBounded(Advance(acc, frameTimes[0]).carry, frameTimes[1..]);
    }
  }

  /**
   * No tick is lost while no frame hits the cap: the ticks run plus the final
   * accumulator equal the initial accumulator plus all frame times in ticks.
   */
  lemma {:induction false} NoTickLoss(acc: real, frameTimes: seq<real>)
    requires acc >= 0.0
    requires forall i :: 0 <= i < |frameTimes| ==> frameTimes[i] >= 0.0
    requires NeverClamped(acc, frameTimes)
    ensures Run(acc, frameTimes).ticks as real + Run(acc, frameTimes).carry
            == acc + Sum(frameTimes) * FIXED_TICKS_PER_SEC
    decreases |frameTimes|
  {
    if frameTimes != [] {
      var first := Advance(acc, frameTimes[0]);
      UnclampedKeepsEveryTick(acc, frameTimes[0]);
      assert forall i :: 0 <= i < |frameTimes[1..]| ==> frameTimes[1..][i] == frameTimes[i + 1];
      NoTickLoss(first.carry, frameTimes[1..]);
    }
  }

  /** Starting from a carry in [0, 1), every later accumulator stays in [0, 1) while frame times are non-negative. */
  lemma {:induction false} RunCarryIsFraction(acc: real, frameTimes: seq<real>)
    requires 0.0 <= acc < 1.0
    requires forall i :: 0 <= i < |frameTimes| ==> frameTimes[i] >= 0.0
    ensures 0.0 <= Run(acc, frameTimes).carry < 1.0
    decreases |frameTimes|
  {
    if frameTimes != [] {
      assert forall i :: 0 <= i < |frameTimes[1..]| ==> frameTimes[1..][i] == frameTimes[i + 1];
      RunCarryIsFraction(Advance(acc, frameTimes[0]).carry, frameTimes[1..]);
    }
  }

  /**
   * Frame times that add up to exactly n tick periods, none of them hitting
   * the cap, run exactly n ticks from an empty accumulator and leave it empty.
   */
  lemma WholeTicksAllRun(frameTimes: seq<real>, n: nat)
    requires forall i :: 0 <= i < |frameTimes| ==> frameTimes[i] >= 0.0
    requires Sum(frameTimes) * FIXED_TICKS_PER_SEC == n as real
    requires NeverClamped(0.0, frameTimes)
    ensures Run(0.0, frameTimes) == Frame(n, 0.0)
  {
    NoTickLoss(0.0, frameTimes);
    RunCarryIsFraction(0.0, frameTimes);
    var f := Run(0.0, frameTimes);
    assert f.ticks as real + f.carry == n as real;
  }

  // ---------------------------------------------------------------------
  // The application object

  /** An entity, reduced to the physics handles it holds. */
  datatype Object = Object(rigidBody: nat, collider: nat)

  class App {
    /** The accumulator, in ticks. */
    var fixedTickTime: real
    var keybinds: Keybinds
    /** The physics world, reduced to the number of steps it has taken. */
    var physicsSteps: nat
    var objects: seq<Object>

    /** `App::new`: an empty accumulator, default key bindings, no objects. */
    constructor ()
      ensures fixedTickTime == 0.0 && physicsSteps == 0 && objects == []
      ensures fresh(keybinds) && keybinds.mappings == DefaultMap()
    {
      fixedTickTime := 0.0;
      keybinds := new Keybinds();
      physicsSteps := 0;
      objects := [];
    }

    /** `check_fixed_tick`: adds the frame time to the accumulator, runs the ticks, keeps the remainder. */
    method CheckFixedTick(frameTime: real)
      modifies this`fixedTickTime, this`physicsSteps
      ensures fixedTickTime == Advance(old(fixedTickTime), frameTime).carry
      ensures physicsSteps == old(physicsSteps) + Advance(old(fixedTickTime), frameTime).ticks
    {
      fixedTickTime := fixedTickTime + frameTime * FIXED_TICKS_PER_SEC;
      var ticks := Min(AsU32(fixedTickTime), MAX_TICKS_PER_FRAME);
      for i := 0 to ticks
        invariant fixedTickTime == old(fixedTickTime) + frameTime * FIXED_TICKS_PER_SEC
        invariant physicsSteps == old(physicsSteps) + i
      {
        FixedTick();
      }
      fixedTickTime := RemOne(fixedTickTime);
    }

    /** `fixed_tick`: one physics step and nothing else. */
    method FixedTick()
      modifies this`physicsSteps
      ensures physicsSteps == old(physicsSteps) + 1
    {
      physicsSteps := physicsSteps + 1;
    }
  }
}
