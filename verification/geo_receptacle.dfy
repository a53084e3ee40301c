/**
  The geo receptacle: a stack of energy pickups with a running energy total and
  a flag saying whether the total has reached the target.
 */
module GeoReceptacle {
  import opened Outcomes

  const Int32Modulus: int := 0x1_0000_0000

  /** The values of a C# `int`. */
  type Int32 = x: int | -0x8000_0000 <= x < 0x8000_0000

  /** C# `int` arithmetic is unchecked: results wrap modulo 2^32 into the `int` range. */
  function Wrap(x: int): (r: Int32)
    ensures (x - r) % Int32Modulus == 0
    ensures -0x8000_0000 <= x < 0x8000_0000 ==> r == x
  {
    (x + 0x8000_0000) % Int32Modulus - 0x8000_0000
  }

  /** Wrapping only depends on the value modulo 2^32. */
  lemma WrapCongruent(a: int, b: int)
    requires (a - b) % Int32Modulus == 0
    ensures Wrap(a) == Wrap(b)
  {
    var k := (a - b) / Int32Modulus;
    assert a == b + k * Int32Modulus;
    ShiftMod(b + 0x8000_0000, k);
  }

  lemma {:induction false} ShiftMod(y: int, k: int)
    ensures (y + k * Int32Modulus) % Int32Modulus == y % Int32Modulus
    decreases if k < 0 then -k else k
  {
    if k > 0 {
      ShiftMod(y, k - 1);
      assert y + k * Int32Modulus == (y + (k - 1) * Int32Modulus) + Int32Modulus;
    } else if k < 0 {
      ShiftMod(y, k + 1);
      assert y + k * Int32Modulus == (y + (k + 1) * Int32Modulus) - Int32Modulus;
    }
  }

  /** Adding to a wrapped value wraps the exact sum. */
  lemma WrapAdd(x: int, v: int)
    ensures Wrap(Wrap(x) + v) == Wrap(x + v)
  {
    var w := Wrap(x);
    assert (w + v - (x + v)) % Int32Modulus == 0 by {
      assert w + v - (x + v) == -(x - w);
      NegMultiple(x - w);
    }
    WrapCongruent(w + v, x + v);
  }

  lemma NegMultiple(d: int)
    requires d % Int32Modulus == 0
    ensures (-d) % Int32Modulus == 0
  {
    var k := d / Int32Modulus;
    assert -d == (-k) * Int32Modulus;
    ShiftMod(0, -k);
  }

  /** A pickup: which one it is, and the energy it carries. */
  datatype Pickup = Pickup(key: nat, energyValue: Int32)

  /** The receptacle's state; the top of the stack is the last element of `pickups`. */
  datatype Receptacle = Receptacle(
    id: Int32,
    totalEnergy: Int32,
    targetEnergy: Int32,
    targetReached: bool,
    pickups: seq<Pickup>)

  /** The energy of a sequence of pickups, without wrap-around. */
  function Sum(ps: seq<Pickup>): int {
    if |ps| == 0 then 0 else Sum(ps[..|ps| - 1]) + ps[|ps| - 1].energyValue
  }

  /** The flag agrees with the total. */
  predicate FlagAgrees(r: Receptacle) {
    r.targetReached == (r.targetEnergy == r.totalEnergy)
  }

  /** The receptacle started at `start` energy: the total counts exactly the stacked pickups. */
  predicate Tracks(r: Receptacle, start: Int32) {
    r.totalEnergy == Wrap(start + Sum(r.pickups))
  }

  /** `AddPickup`: push the pickup, add its energy, recompute the flag. */
  function AddPickup(r: Receptacle, p: Pickup): (r': Receptacle)
    ensures r'.pickups == r.pickups + [p]
    ensures r'.totalEnergy == Wrap(r.totalEnergy + p.energyValue)
    ensures FlagAgrees(r')
    ensures r'.id == r.id && r'.targetEnergy == r.targetEnergy
  {
    var total := Wrap(r.totalEnergy + p.energyValue);
    r.(pickups := r.pickups + [p], totalEnergy := total, targetReached := r.targetEnergy == total)
  }

  /** `Stack.Pop` on an empty stack throws. */
  datatype PopError = EmptyStack

  /** `RemovePickup`: pop the top pickup, subtract its energy, recompute the flag, return the pickup. */
  function RemovePickup(r: Receptacle): (res: Result<(Receptacle, Pickup), PopError>)
    ensures res.Failure? <==> |r.pickups| == 0
    ensures res.Success? ==>
              && res.value.1 == r.pickups[|r.pickups| - 1]
              && res.value.0.pickups == r.pickups[..|r.pickups| - 1]
              && res.value.0.totalEnergy == Wrap(r.totalEnergy - res.value.1.energyValue)
              && FlagAgrees(res.value.0)
              && res.value.0.id == r.id && res.value.0.targetEnergy == r.targetEnergy
  {
    if |r.pickups| == 0 then Failure(EmptyStack)
    else
      var top := r.pickups[|r.pickups| - 1];
      var total := Wrap(r.totalEnergy - top.energyValue);
      Success((r.(pickups := r.pickups[..|r.pickups| - 1], totalEnergy := total,
                  targetReached := r.targetEnergy == total), top))
  }

  /** `IsEmpty`. */
  function IsEmpty(r: Receptacle): (b: bool)
    ensures b <==> RemovePickup(r).Failure?
  {
    |r.pickups| == 0
  }

  /** Removal fails exactly when the receptacle is empty, and never after an add. */
  lemma RemoveFailsIffEmpty(r: Receptacle, p: Pickup)
    ensures RemovePickup(r).Failure? <==> IsEmpty(r)
    ensures !IsEmpty(AddPickup(r, p))
  {
  }

  /** An add followed by a remove returns the pickup and restores the receptacle. */
  lemma AddThenRemove(r: Receptacle, p: Pickup)
    requires FlagAgrees(r)
    ensures RemovePickup(AddPickup(r, p)) == Success((r, p))
  {
    var a := AddPickup(r, p);
    assert a.pickups[..|a.pickups| - 1] == r.pickups;
    var v: int := p.energyValue;
    WrapAdd(r.totalEnergy + v, -v);
  }

  /** A remove followed by re-adding the removed pickup restores the receptacle. */
  lemma RemoveThenAdd(r: Receptacle)
    requires FlagAgrees(r) && |r.pickups| > 0
    ensures RemovePickup(r).Success?
    ensures AddPickup(RemovePickup(r).value.0, RemovePickup(r).value.1) == r
  {
    var top := r.pickups[|r.pickups| - 1];
    assert r.pickups[..|r.pickups| - 1] + [top] == r.pickups;
    WrapAdd(r.totalEnergy - top.energyValue, top.energyValue);
  }

  /** Adding keeps the total equal to the start plus the stacked energy. */
  lemma AddKeepsTracks(r: Receptacle, start: Int32, p: Pickup)
    requires Tracks(r, start)
    ensures Tracks(AddPickup(r, p), start) && FlagAgrees(AddPickup(r, p))
  {
    var a := AddPickup(r, p);
    assert a.pickups[..|a.pickups| - 1] == r.pickups;
    WrapAdd(start + Sum(r.pickups), p.energyValue);
  }

  /** Removing keeps the total equal to the start plus the stacked energy. */
  lemma RemoveKeepsTracks(r: Receptacle, start: Int32)
    requires Tracks(r, start) && |r.pickups| > 0
    ensures RemovePickup(r).Success? && Tracks(RemovePickup(r).value.0, start)
    ensures FlagAgrees(RemovePickup(r).value.0)
  {
    var top := r.pickups[|r.pickups| - 1];
    var rest := r.pickups[..|r.pickups| - 1];
    assert Sum(r.pickups) == Sum(rest) + top.energyValue;
    var v: int := top.energyValue;
    WrapAdd(start + Sum(r.pickups), -v);
  }

  /** The calls other scripts make on a receptacle. */
  datatype Op = Add(pickup: Pickup) | Remove

  /** Apply calls in order; a remove on an empty stack throws and ends the sequence. */
  function Apply(r: Receptacle, ops: seq<Op>): Result<Receptacle, PopError>
    decreases |ops|
  {
    if |ops| == 0 then Success(r)
    else match ops[0]
      case Add(p) => Apply(AddPickup(r, p), ops[1..])
      case Remove =>
        match RemovePickup(r)
        case Failure(e) => Failure(e)
        case Success(res) => Apply(res.0, ops[1..])
  }

  /**
    Any sequence of calls that does not throw keeps the total equal to the start
    plus the stacked energy, whatever the flag was set to at the start; after at
    least one call the flag agrees with the total.
   */
  lemma {:induction false} ApplyKeepsTracks(r: Receptacle, start: Int32, ops: seq<Op>)
    requires Tracks(r, start)
    ensures Apply(r, ops).Success? ==> Tracks(Apply(r, ops).value, start)
    ensures Apply(r, ops).Success? && |ops| > 0 ==> FlagAgrees(Apply(r, ops).value)
    decreases |ops|
  {
    if |ops| > 0 {
      match ops[0]
      case Add(p) =>
        AddKeepsTracks(r, start, p);
        ApplyKeepsTracks(AddPickup(r, p), start, ops[1..]);
      case Remove =>
        if |r.pickups| > 0 {
          RemoveKeepsTracks(r, start);
          ApplyKeepsTracks(RemovePickup(r).value.0, start, ops[1..]);
        }
    }
  }

  /** A position in the world. */
  datatype Vec3 = Vec3(x: real, y: real, z: real)

  /** `GetNextOpenPosition`: where the next pickup goes, above the receptacle at `pos`. */
  function GetNextOpenPosition(r: Receptacle, pos: Vec3): (p: Vec3)
    ensures p.x == pos.x && p.z == pos.z
    ensures |r.pickups| == 0 ==> p.y == pos.y + 1.5
    ensures p.y >= pos.y + 1.5
  {
    Vec3(pos.x, pos.y + (|r.pickups| + 1) as real * 0.5 + 1.0, pos.z)
  }

  /** Each pickup added raises the next open position by exactly half a unit. */
  lemma NextOpenRisesByHalf(r: Receptacle, p: Pickup, pos: Vec3)
    ensures GetNextOpenPosition(AddPickup(r, p), pos).y == GetNextOpenPosition(r, pos).y + 0.5
  {
  }

  /** The next open height strictly increases with the number of stacked pickups. */
  lemma NextOpenHeightIncreasing(r1: Receptacle, r2: Receptacle, pos: Vec3)
    requires |r1.pickups| < |r2.pickups|
    ensures GetNextOpenPosition(r1, pos).y < GetNextOpenPosition(r2, pos).y
  {
  }
}
