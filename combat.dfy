/** The cooldown-gated fire decision of `Ai.maybe_shoot`. */
module Combat {

  /** Ticks between two shots: the trigger value of `bullet_tick`. */
  const Cooldown := 50

  /** What the forward ray query hit first, classified by the physics side. */
  datatype RayHit = TankHit | DestructibleBoxHit | OtherHit | NoHit

  /** The source shoots at another tank or at a destructible box. */
  predicate IsTarget(hit: RayHit)
  {
    hit == TankHit || hit == DestructibleBoxHit
  }

  /** The cooldown counter after a call, and whether the call fired. */
  datatype Shot = Shot(tick: int, fired: bool)

  /** One call of `maybe_shoot`: below the trigger the counter counts up;
      at the trigger the ray is cast and a target resets it and fires. */
  function ShootStep(tick: int, hit: RayHit): (r: Shot)
    requires 0 <= tick <= Cooldown
    ensures 0 <= r.tick <= Cooldown
    ensures r.fired <==> tick == Cooldown && IsTarget(hit)
    ensures r.fired ==> r.tick == 0
    ensures !r.fired ==> r.tick == if tick < Cooldown then tick + 1 else Cooldown
  {
    if tick != Cooldown then Shot(tick + 1, false)
    else if IsTarget(hit) then Shot(0, true)
    else Shot(tick, false)
  }

  /** Which of a run of consecutive calls fire, starting from `tick`. */
  function Fires(tick: int, hits: seq<RayHit>): (r: seq<bool>)
    requires 0 <= tick <= Cooldown
    ensures |r| == |hits|
    decreases |hits|
  {
    if hits == [] then []
    else
      var s := ShootStep(tick, hits[0]);
      [s.fired] + Fires(s.tick, hits[1..])
  }

  /** Starting below the trigger, the first `Cooldown - tick` calls never fire. */
  lemma {:induction false} QuietWhileCooling(tick: int, hits: seq<RayHit>, i: nat)
    requires 0 <= tick < Cooldown
    requires i < |hits| && i < Cooldown - tick
    ensures !Fires(tick, hits)[i]
    decreases i
  {
    if i > 0 {
      QuietWhileCooling(tick + 1, hits[1..], i - 1);
    }
  }

  /** Two shots are at least `Cooldown + 1` calls apart, whatever the ray hits. */
  lemma {:induction false} ShotsSpaced(tick: int, hits: seq<RayHit>, i: nat, j: nat)
    requires 0 <= tick <= Cooldown
    requires i < j < |hits|
    requires Fires(tick, hits)[i] && Fires(tick, hits)[j]
    ensures j - i >= Cooldown + 1
    decreases i
  {
    var s := ShootStep(tick, hits[0]);
    if i == 0 {
      if j - 1 < Cooldown {
        QuietWhileCooling(0, hits[1..], j - 1);
      }
    } else {
      ShotsSpaced(s.tick, hits[1..], i - 1, j - 1);
    }
  }

  /** From the initial counter value the first call may already fire, and a
      run of targets fires exactly every `Cooldown + 1` calls. */
  lemma {:induction false} SteadyFire(tick: int, hits: seq<RayHit>, i: nat)
    requires tick == Cooldown
    requires forall k :: 0 <= k < |hits| ==> IsTarget(hits[k])
    requires i < |hits|
    ensures Fires(tick, hits)[i] <==> i % (Cooldown + 1) == 0
    decreases i
  {
    if i > 0 {
      if i <= Cooldown {
        QuietWhileCooling(0, hits[1..], i - 1);
      } else {
        CoolingReturns(hits);
        SteadyFire(tick, hits[Cooldown + 1..], i - (Cooldown + 1));
      }
    }
  }

  /** After a shot the counter is back at the trigger `Cooldown + 1` calls later. */
  lemma CoolingReturns(hits: seq<RayHit>)
    requires |hits| > Cooldown
    requires IsTarget(hits[0])
    ensures Fires(Cooldown, hits)[Cooldown + 1..] == Fires(Cooldown, hits[Cooldown + 1..])
  {
    CountUp(0, hits[1..], Cooldown);
  }

  /** `n` quiet calls from `tick` leave the counter at `tick + n`. */
  lemma {:induction false} CountUp(tick: int, hits: seq<RayHit>, n: nat)
    requires 0 <= tick && tick + n <= Cooldown && n <= |hits|
    ensures Fires(tick, hits)[n..] == Fires(tick + n, hits[n..])
    decreases n
  {
    if n > 0 {
      CountUp(tick + 1, hits[1..], n - 1);
      assert hits[1..][n - 1..] == hits[n..];
    }
  }
}
