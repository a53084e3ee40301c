/**
  The security droid's per-frame decision: chase the player, attack when close
  enough and the attack timer allows, and drive the animator's fighting flag.
  Distance and time are inputs; floating-point values are modelled as reals.
 */
module SecurityDroid {

  /** The droid's tuning values. */
  datatype Settings = Settings(
    chaseRadius: real,
    attackRadius: real,
    attackCooldown: real,
    attackGracePeriod: real,
    attackDamage: real)

  /** The values the component starts with. */
  const DefaultSettings: Settings := Settings(10.0, 5.0, 3.0, 1.0, 10.0)

  /** What persists between frames: the attack-range flag, the attack timer, the animator's fighting flag. */
  datatype Droid = Droid(inAttackRange: bool, nextAttackAttempt: real, fighting: bool)

  /** One frame's inputs: whether there is a target, its distance, the game time, the aggro flag. */
  datatype Frame = Frame(hasTarget: bool, distance: real, time: real, isAggro: bool)

  /** What the droid does to the world this frame. */
  datatype Action =
    | NoAction
    | Attack(damage: real)   // damage the player and play the attack sound
    | Move                   // move towards the player

  /** The state after a frame, whether the droid turned towards the player, and its action. */
  datatype Step = Step(droid: Droid, turned: bool, action: Action)

  /** `Update` for one frame. */
  function Update(s: Settings, d: Droid, f: Frame): (r: Step)
    ensures !f.hasTarget ==> r == Step(d, false, NoAction)
    ensures r.turned <==> f.hasTarget && f.distance <= s.chaseRadius
    ensures f.hasTarget && f.distance > s.chaseRadius ==>
              r.action == NoAction && !r.droid.fighting
              && r.droid.inAttackRange == d.inAttackRange && r.droid.nextAttackAttempt == d.nextAttackAttempt
    ensures !f.isAggro ==>
              r.action == NoAction
              && r.droid.inAttackRange == d.inAttackRange && r.droid.nextAttackAttempt == d.nextAttackAttempt
    ensures f.hasTarget && !f.isAggro && f.distance <= s.chaseRadius ==> r.droid == d
    ensures f.hasTarget && f.isAggro && f.distance <= s.chaseRadius ==> r.droid.fighting
    ensures f.hasTarget && f.isAggro && s.attackRadius < f.distance <= s.chaseRadius ==>
              r.action == Move && !r.droid.inAttackRange && r.droid.nextAttackAttempt == d.nextAttackAttempt
    ensures f.hasTarget && f.isAggro && f.distance <= s.chaseRadius && f.distance <= s.attackRadius ==>
              var timer := if d.inAttackRange then d.nextAttackAttempt else f.time + s.attackGracePeriod;
              && r.droid.inAttackRange
              && (r.action.Attack? <==> f.time >= timer)
              && (r.action.Attack? ==> r.action.damage == s.attackDamage
                                       && r.droid.nextAttackAttempt == f.time + s.attackCooldown)
              && (!r.action.Attack? ==> r.droid.nextAttackAttempt == timer)
    ensures r.action.Attack? ==> r.action.damage == s.attackDamage
  {
    if !f.hasTarget then Step(d, false, NoAction)
    else if f.distance <= s.chaseRadius then
      if f.isAggro then
        var fighting := true;
        if f.distance <= s.attackRadius then
          var timer := if !d.inAttackRange then f.time + s.attackGracePeriod else d.nextAttackAttempt;
          if f.time >= timer then
            Step(Droid(true, f.time + s.attackCooldown, fighting), true, Attack(s.attackDamage))
          else
            Step(Droid(true, timer, fighting), true, NoAction)
        else
          Step(d.(inAttackRange := false, fighting := fighting), true, Move)
      else
        Step(d, true, NoAction)
    else
      Step(d.(fighting := false), false, NoAction)
  }

  /** On the frame the droid first comes within attack range, a positive grace period prevents an attack. */
  lemma GracePeriodOnEntry(s: Settings, d: Droid, f: Frame)
    requires !d.inAttackRange && s.attackGracePeriod > 0.0
    requires f.hasTarget && f.isAggro && f.distance <= s.chaseRadius && f.distance <= s.attackRadius
    ensures Update(s, d, f).action == NoAction
    ensures Update(s, d, f).droid.nextAttackAttempt == f.time + s.attackGracePeriod
  {
  }

  /** The steps of a run of frames, each starting from the state the previous one left. */
  function Run(s: Settings, d: Droid, frames: seq<Frame>): (steps: seq<Step>)
    ensures |steps| == |frames|
    decreases |frames|
  {
    if |frames| == 0 then []
    else
      var first := Update(s, d, frames[0]);
      [first] + Run(s, first.droid, frames[1..])
  }

  /** Frame times never go backwards. */
  predicate TimeOrdered(frames: seq<Frame>) {
    forall i, j :: 0 <= i < j < |frames| ==> frames[i].time <= frames[j].time
  }

  function Min(a: real, b: real): real {
    if a <= b then a else b
  }

  /**
    After an attack at time `last`, the timer cannot allow another before
    `last + Min(cooldown, grace)`: either the droid is out of attack range
    (and re-entering restarts the grace period) or the timer is that late.
   */
  predicate TimerGuards(s: Settings, d: Droid, last: real) {
    d.inAttackRange ==> d.nextAttackAttempt >= last + Min(s.attackCooldown, s.attackGracePeriod)
  }

  /** One frame at or after `last` keeps the guard, and attacks only once the guard allows. */
  lemma StepKeepsGuard(s: Settings, d: Droid, f: Frame, last: real)
    requires TimerGuards(s, d, last) && f.time >= last
    ensures TimerGuards(s, Update(s, d, f).droid, last)
    ensures Update(s, d, f).action.Attack? ==> f.time >= last + Min(s.attackCooldown, s.attackGracePeriod)
  {
  }

  /** Under the guard, no frame of a time-ordered run attacks before `last + Min(cooldown, grace)`. */
  lemma {:induction false} RunKeepsGuard(s: Settings, d: Droid, frames: seq<Frame>, last: real)
    requires TimerGuards(s, d, last) && TimeOrdered(frames)
    requires forall i :: 0 <= i < |frames| ==> frames[i].time >= last
    ensures forall i :: 0 <= i < |frames| && Run(s, d, frames)[i].action.Attack? ==>
              frames[i].time >= last + Min(s.attackCooldown, s.attackGracePeriod)
    decreases |frames|
  {
    if |frames| > 0 {
      var first := Update(s, d, frames[0]);
      StepKeepsGuard(s, d, frames[0], last);
      var rest := frames[1..];
      assert TimeOrdered(rest) by {
        forall i, j | 0 <= i < j < |rest| ensures rest[i].time <= rest[j].time {
          assert rest[i] == frames[i + 1] && rest[j] == frames[j + 1];
        }
      }
      RunKeepsGuard(s, first.droid, rest, last);
      forall i | 0 <= i < |frames| && Run(s, d, frames)[i].action.Attack?
        ensures frames[i].time >= last + Min(s.attackCooldown, s.attackGracePeriod)
      {
        if i > 0 {
          assert Run(s, d, frames)[i] == Run(s, first.droid, rest)[i - 1];
          assert frames[i] == rest[i - 1];
        }
      }
    }
  }

  /** The state a run leaves after its first `n` frames. */
  lemma {:induction false} RunPrefix(s: Settings, d: Droid, frames: seq<Frame>, n: nat)
    requires 0 < n <= |frames|
    ensures Run(s, d, frames)[n..] == Run(s, Run(s, d, frames)[n - 1].droid, frames[n..])
    decreases n
  {
    var first := Update(s, d, frames[0]);
    if n > 1 {
      RunPrefix(s, first.droid, frames[1..], n - 1);
      assert frames[1..][n - 1..] == frames[n..];
      assert Run(s, d, frames)[n..] == Run(s, first.droid, frames[1..])[n - 1..];
      assert Run(s, d, frames)[n - 1] == Run(s, first.droid, frames[1..])[n - 2];
    }
  }

  /**
    In a run whose frame times never go backwards, two attacks are at least
    `Min(attackCooldown, attackGracePeriod)` apart.
   */
  lemma AttacksSpaced(s: Settings, d: Droid, frames: seq<Frame>, i: nat, j: nat)
    requires TimeOrdered(frames) && i < j < |frames|
    requires Run(s, d, frames)[i].action.Attack? && Run(s, d, frames)[j].action.Attack?
    ensures frames[j].time - frames[i].time >= Min(s.attackCooldown, s.attackGracePeriod)
  {
    var steps := Run(s, d, frames);
    var last := frames[i].time;
    var after := steps[i].droid;
    assert after.nextAttackAttempt == last + s.attackCooldown && after.inAttackRange by {
      RunPrefix(s, d, frames, i + 1);
      if i == 0 {
        assert steps[0] == Update(s, d, frames[0]);
      } else {
        RunPrefix(s, d, frames, i);
        assert steps[i] == Run(s, steps[i - 1].droid, frames[i..])[0];
        assert steps[i] == Update(s, steps[i - 1].droid, frames[i]);
      }
    }
    var rest := frames[i + 1..];
    RunPrefix(s, d, frames, i + 1);
    assert TimeOrdered(rest) by {
      forall a, b | 0 <= a < b < |rest| ensures rest[a].time <= rest[b].time {
        assert rest[a] == frames[i + 1 + a] && rest[b] == frames[i + 1 + b];
      }
    }
    assert forall k :: 0 <= k < |rest| ==> rest[k].time >= last by {
      forall k | 0 <= k < |rest| ensures rest[k].time >= last {
        assert rest[k] == frames[i + 1 + k];
      }
    }
    RunKeepsGuard(s, after, rest, last);
    assert steps[j] == Run(s, after, rest)[j - i - 1];
    assert frames[j] == rest[j - i - 1];
  }

  /** With the tuning the component starts with, a droid never attacks twice within one second. */
  lemma DefaultAttacksSpaced(d: Droid, frames: seq<Frame>, i: nat, j: nat)
    requires TimeOrdered(frames) && i < j < |frames|
    requires Run(DefaultSettings, d, frames)[i].action.Attack? && Run(DefaultSettings, d, frames)[j].action.Attack?
    ensures frames[j].time - frames[i].time >= 1.0
  {
    AttacksSpaced(DefaultSettings, d, frames, i, j);
  }
}
