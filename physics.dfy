/** The discrete parts of include/physics/physics.h: the two kinematic slots
    of a `PhysicsObject` and the world's parity bit that picks the old and
    the new one, the copy made by `setupNewState`, the running average of
    `setNewState`, the early-exit case tables of `collides` and
    `isSupportedBy`, the static guard of `adjustPosition`, and the support
    and purge passes of `PhysicsWorld::runToTime`. Single-precision floats
    are reals here; `sqrt` is never taken: `abs(v) <= r` is stated as
    `r >= 0 && v . v <= r * r`, which is the same condition over the reals. */
module Physics {
  import opened Wrappers
  import opened Util

  // ---------------------------------------------------------------------------
  // Vectors and positions

  /** `VectorF`. */
  datatype Vec3 = Vec3(x: real, y: real, z: real)
  {
    function Plus(v: Vec3): Vec3
    {
      Vec3(x + v.x, y + v.y, z + v.z)
    }

    function Minus(v: Vec3): Vec3
    {
      Vec3(x - v.x, y - v.y, z - v.z)
    }

    function Scale(k: real): Vec3
    {
      Vec3(k * x, k * y, k * z)
    }

    function Dot(v: Vec3): real
    {
      x * v.x + y * v.y + z * v.z
    }
  }

  const Zero := Vec3(0.0, 0.0, 0.0)

  /** `PositionF`: a point and the dimension it lies in. */
  datatype Pos = Pos(v: Vec3, d: nat)

  /** `eps` of include/util/util.h. */
  const Eps: real := 0.0001
  /** `PhysicsWorld::distanceEPS`. */
  const DistanceEPS: real := 20.0 * Eps

  function Abs(x: real): (r: real)
    ensures r >= 0.0 && (r == x || r == -x)
  {
    if x < 0.0 then -x else x
  }

  /** `abs(v) <= r`, where `abs` of a vector is its length. */
  predicate WithinRadius(v: Vec3, r: real)
  {
    r >= 0.0 && v.Dot(v) <= r * r
  }

  // ---------------------------------------------------------------------------
  // Physical properties

  /** `PhysicsProperties`: bounce and slide factors, each kept in [0, 1]. */
  datatype PhysicsProperties = PhysicsProperties(bounceFactor: real, slideFactor: real)

  /** The constructor of `PhysicsProperties`: both factors clamped into
      [0, 1] with `limit`. */
  function MakeProperties(bounceFactor: real, slideFactor: real): (p: PhysicsProperties)
    ensures 0.0 <= p.bounceFactor <= 1.0 && 0.0 <= p.slideFactor <= 1.0
    ensures 0.0 <= bounceFactor <= 1.0 ==> p.bounceFactor == bounceFactor
    ensures 0.0 <= slideFactor <= 1.0 ==> p.slideFactor == slideFactor
  {
    PhysicsProperties(Limit(bounceFactor, 0.0, 1.0), Limit(slideFactor, 0.0, 1.0))
  }

  /** `sqrt(0.5f)` as a single-precision float. */
  const SqrtHalf: real := 0.707106769084930419921875

  /** `PhysicsProperties()`: bounce `sqrt(0.5)` and slide `1 - sqrt(0.5)`. */
  const DefaultProperties: PhysicsProperties := MakeProperties(SqrtHalf, 1.0 - SqrtHalf)

  // ---------------------------------------------------------------------------
  // Shapes and the case tables of `collides` and `isSupportedBy`

  /** `PhysicsObject::Type`. */
  datatype Shape = Box | Cylinder | Empty

  /** What `collides` and `isSupportedBy` read of one object: its shape, its
      current position (`getPosition()`), its extents and its static and
      supported flags. */
  datatype Body = Body(shape: Shape, position: Pos, extents: Vec3, isStatic: bool, supported: bool)

  /** `extents + rt.extents`. */
  function ExtentsSum(a: Body, b: Body): Vec3
  {
    a.extents.Plus(b.extents)
  }

  /** `aPosition - bPosition`. */
  function Delta(a: Body, b: Body): Vec3
  {
    a.position.v.Minus(b.position.v)
  }

  /** The horizontal test shared by the box-cylinder cases: the cylinder's
      axis within the box's x or z slab, or else the box's nearest vertical
      edge within the cylinder's radius (plus `distanceEPS`). */
  predicate BoxCylinderTouch(boxCenter: Vec3, boxExtents: Vec3, cylinderCenter: Vec3, radius: real)
  {
    var dc := Vec3(cylinderCenter.x - boxCenter.x, 0.0, cylinderCenter.z - boxCenter.z);
    Abs(dc.x) < boxExtents.x ||
    Abs(dc.z) < boxExtents.z ||
    WithinRadius(Vec3(dc.x - boxExtents.x * Sgn(dc.x) as real, 0.0, dc.z - boxExtents.z * Sgn(dc.z) as real),
                 radius + DistanceEPS)
  }

  /** The box-cylinder test with the roles taken from the shapes, whichever
      of the two is the box. */
  predicate MixedTouch(a: Body, b: Body)
    requires (a.shape == Box && b.shape == Cylinder) || (a.shape == Cylinder && b.shape == Box)
  {
    if a.shape == Box then BoxCylinderTouch(a.position.v, a.extents, b.position.v, b.extents.x)
    else BoxCylinderTouch(b.position.v, b.extents, a.position.v, a.extents.x)
  }

  /** `collides`: never for an Empty object or across dimensions, never
      when the centres are further apart on some axis than the extents'
      sum plus `distanceEPS`; otherwise always for two boxes, and by the
      horizontal shape test for the other pairs. */
  function BodiesCollide(a: Body, b: Body): (r: bool)
    ensures a.shape == Empty || b.shape == Empty ==> !r
    ensures a.position.d != b.position.d ==> !r
    ensures var s, dp := ExtentsSum(a, b), Delta(a, b);
            Abs(dp.x) > DistanceEPS + s.x || Abs(dp.y) > DistanceEPS + s.y || Abs(dp.z) > DistanceEPS + s.z ==> !r
    ensures var s, dp := ExtentsSum(a, b), Delta(a, b);
            (a.shape == Box && b.shape == Box && a.position.d == b.position.d &&
             Abs(dp.x) <= DistanceEPS + s.x && Abs(dp.y) <= DistanceEPS + s.y && Abs(dp.z) <= DistanceEPS + s.z) ==> r
  {
    if a.shape == Empty || b.shape == Empty then false
    else if a.position.d != b.position.d then false
    else
      var s, dp := ExtentsSum(a, b), Delta(a, b);
      if Abs(dp.x) > DistanceEPS + s.x then false
      else if Abs(dp.y) > DistanceEPS + s.y then false
      else if Abs(dp.z) > DistanceEPS + s.z then false
      else if a.shape == Box && b.shape == Box then true
      else if a.shape == Cylinder && b.shape == Cylinder then WithinRadius(Vec3(dp.x, 0.0, dp.z), s.x + DistanceEPS)
      else MixedTouch(a, b)
  }

  /** Collision does not depend on which object asks. */
  lemma CollidesSymmetric(a: Body, b: Body)
    ensures BodiesCollide(a, b) == BodiesCollide(b, a)
  {
    var s, dp := ExtentsSum(a, b), Delta(a, b);
    assert ExtentsSum(b, a) == s;
    assert Delta(b, a) == dp.Scale(-1.0);
    if a.shape == Cylinder && b.shape == Cylinder {
      assert Vec3(-dp.x, 0.0, -dp.z).Dot(Vec3(-dp.x, 0.0, -dp.z)) == Vec3(dp.x, 0.0, dp.z).Dot(Vec3(dp.x, 0.0, dp.z));
    }
  }

  /** What `isSupportedBy` does, including the `assert(false)` its case
      table ends in. */
  datatype Verdict = Yes | No | AssertFails

  function FromBool(b: bool): Verdict
  {
    if b then Yes else No
  }

  /** Whether `b` is within the band `isSupportedBy` accepts under `a`:
      horizontally overlapping within `distanceEPS`, and below `a` by more
      than nothing and less than the extents' y-sum plus four
      `distanceEPS`. */
  predicate InSupportBand(a: Body, b: Body)
  {
    var s, dp := ExtentsSum(a, b), Delta(a, b);
    dp.x + DistanceEPS > -s.x && dp.x - DistanceEPS < s.x &&
    dp.z + DistanceEPS > -s.z && dp.z - DistanceEPS < s.z &&
    dp.y > 0.0 && dp.y < DistanceEPS * 4.0 + s.y
  }

  /** `isSupportedBy` as written: after the static, support and dimension
      guards and the band test, the shape table has no case for an Empty
      object, so an Empty supporter in the band reaches `assert(false)`. */
  function SupportedByAsWritten(a: Body, b: Body): Verdict
  {
    if a.isStatic then No
    else if !b.supported && !b.isStatic then No
    else if a.position.d != b.position.d then No
    else if !InSupportBand(a, b) then No
    else if a.shape == Box && b.shape == Box then Yes
    else if a.shape == Cylinder && b.shape == Cylinder then
      var dp := Delta(a, b);
      FromBool(WithinRadius(Vec3(dp.x, 0.0, dp.z), ExtentsSum(a, b).x + DistanceEPS))
    else if (a.shape == Box && b.shape == Cylinder) || (a.shape == Cylinder && b.shape == Box) then
      FromBool(MixedTouch(a, b))
    else AssertFails
  }

  /** A non-static box resting on an Empty object — a static body, so it
      passes the support guard — reaches the `assert(false)`. */
  lemma EmptySupporterReachesAssert()
    ensures SupportedByAsWritten(Body(Box, Pos(Vec3(0.0, 1.0, 0.0), 0), Vec3(0.5, 0.5, 0.5), false, false),
                                 Body(Empty, Pos(Vec3(0.0, 0.499, 0.0), 0), Zero, true, false)) == AssertFails
  {
  }

  /** The assertion fails only when one of the two is Empty. */
  lemma AssertFailsOnlyOnEmpty(a: Body, b: Body)
    ensures SupportedByAsWritten(a, b) == AssertFails ==> a.shape == Empty || b.shape == Empty
  {
  }

  /** `isSupportedBy` with Empty objects never supporting nor supported,
      as they never collide: static objects are never supported by
      anything; the supporter must be static or itself supported, in the
      same dimension, and directly beneath within the band; two boxes in
      the band always support. */
  function SupportedBy(a: Body, b: Body): (r: bool)
    ensures a.isStatic ==> !r
    ensures !b.supported && !b.isStatic ==> !r
    ensures a.position.d != b.position.d ==> !r
    ensures Delta(a, b).y <= 0.0 ==> !r
    ensures a.shape == Empty || b.shape == Empty ==> !r
    ensures (a.shape == Box && b.shape == Box && !a.isStatic && (b.supported || b.isStatic) &&
             a.position.d == b.position.d && InSupportBand(a, b)) ==> r
  {
    if a.shape == Empty || b.shape == Empty then false
    else if a.isStatic then false
    else if !b.supported && !b.isStatic then false
    else if a.position.d != b.position.d then false
    else if !InSupportBand(a, b) then false
    else if a.shape == Box && b.shape == Box then true
    else if a.shape == Cylinder && b.shape == Cylinder then
      var dp := Delta(a, b);
      WithinRadius(Vec3(dp.x, 0.0, dp.z), ExtentsSum(a, b).x + DistanceEPS)
    else MixedTouch(a, b)
  }

  /** Wherever the written case table does not fail its assertion, the
      corrected one gives the same answer. */
  lemma SupportedByAgrees(a: Body, b: Body)
    requires SupportedByAsWritten(a, b) != AssertFails
    ensures SupportedBy(a, b) == (SupportedByAsWritten(a, b) == Yes)
  {
  }

  /** Support points downwards: two objects never support each other. */
  lemma SupportAntisymmetric(a: Body, b: Body)
    ensures SupportedBy(a, b) ==> !SupportedBy(b, a)
  {
    assert Delta(b, a).y == -Delta(a, b).y;
  }

  /** A box of half-extents 0.5 resting on a static box of the same size,
      at the same x and z and exactly their summed y-extents higher, is
      supported by it. */
  lemma StackedBoxesSupported(x: real, y: real, z: real, d: nat)
    ensures SupportedBy(Body(Box, Pos(Vec3(x, y + 1.0, z), d), Vec3(0.5, 0.5, 0.5), false, false),
                        Body(Box, Pos(Vec3(x, y, z), d), Vec3(0.5, 0.5, 0.5), true, false))
  {
  }

  // ---------------------------------------------------------------------------
  // The running average of `setNewState`

  /** The sum of the proposals. */
  function Sum(ps: seq<Vec3>): Vec3
  {
    if ps == [] then Zero else Sum(ps[..|ps| - 1]).Plus(ps[|ps| - 1])
  }

  /** The arithmetic mean of the proposals. */
  function Mean(ps: seq<Vec3>): Vec3
    requires |ps| > 0
  {
    Sum(ps).Scale(1.0 / |ps| as real)
  }

  /** One step of `setNewState`'s accumulator: the new proposal added to
      the slot's value weighted by the count so far, divided by the count
      plus one. */
  function RunningAverage(proposal: Vec3, current: Vec3, count: nat): Vec3
  {
    proposal.Plus(current.Scale(count as real)).Scale(1.0 / (count + 1) as real)
  }

  /** `v` times the number of proposals is their sum: `v` is their mean,
      in the form that also covers no proposal at all. */
  predicate Averages(v: Vec3, ps: seq<Vec3>)
  {
    v.Scale(|ps| as real) == Sum(ps)
  }

  /** When the slot holds the mean of the earlier proposals (which, for no
      proposal, is no condition at all), one more step leaves it holding
      the mean of all of them. */
  lemma RunningAverageIsMean(ps: seq<Vec3>, current: Vec3, p: Vec3)
    requires Averages(current, ps)
    ensures Averages(RunningAverage(p, current, |ps|), ps + [p])
    ensures RunningAverage(p, current, |ps|) == Mean(ps + [p])
  {
    var n := |ps| as real;
    assert (ps + [p])[..|ps|] == ps;
    var s := Sum(ps + [p]);
    assert s == Sum(ps).Plus(p);
    var r := RunningAverage(p, current, |ps|);
    assert r == s.Scale(1.0 / (n + 1.0));
    ScaleInverse(s, n + 1.0);
  }

  lemma ScaleInverse(s: Vec3, k: real)
    requires k > 0.0
    ensures s.Scale(1.0 / k).Scale(k) == s
  {
    assert (1.0 / k) * k == 1.0;
    assert k * ((1.0 / k) * s.x) == s.x;
    assert k * ((1.0 / k) * s.y) == s.y;
    assert k * ((1.0 / k) * s.z) == s.z;
  }

  // ---------------------------------------------------------------------------
  // The world and its objects

  /** `PhysicsWorld`: the simulation clock, the parity bit that says which
      of every object's two slots is the old (readable) one, the set of
      live objects and the set of objects changed since the last report.
      `gravity` stands for the global `gravityVector`, which
      include/physics/physics.h uses but does not define. */
  class PhysicsWorld {
    var currentTime: real
    var variableSetIndex: int
    var objects: set<PhysicsObject>
    var changedObjects: set<PhysicsObject>
    const gravity: Vec3

    /** The parity bit only ever holds 0 or 1. */
    predicate Parity()
      reads this
    {
      variableSetIndex == 0 || variableSetIndex == 1
    }

    /** Every object belongs to this world, has its two slots, and keeps
        the shape rules its factory gave it. */
    ghost predicate Valid()
      reads this, objects
    {
      Parity() &&
      forall o | o in objects :: o.world == this && o.Slots() && o.ShapeRules()
    }

    constructor(gravity: Vec3)
      ensures Valid() && fresh(this)
      ensures currentTime == 0.0 && variableSetIndex == 0
      ensures objects == {} && changedObjects == {}
      ensures this.gravity == gravity
    {
      currentTime := 0.0;
      variableSetIndex := 0;
      objects := {};
      changedObjects := {};
      this.gravity := gravity;
    }

    /** `getOldVariableSetIndex`: the slot every read goes to. */
    function GetOldVariableSetIndex(): (i: int)
      reads this
      requires Parity()
      ensures 0 <= i <= 1
    {
      variableSetIndex
    }

    /** `getNewVariableSetIndex`: the other slot, the one being built. */
    function GetNewVariableSetIndex(): (i: int)
      reads this
      requires Parity()
      ensures 0 <= i <= 1
      ensures i != GetOldVariableSetIndex()
    {
      1 - variableSetIndex
    }

    /** The two indices always name both slots between them. */
    lemma IndicesComplementary()
      requires Parity()
      ensures {GetOldVariableSetIndex(), GetNewVariableSetIndex()} == {0, 1}
    {
    }

    /** `swapVariableSetIndex`: the new slot becomes the old one and the
        other way round. */
    method SwapVariableSetIndex()
      requires Parity()
      modifies this
      ensures Parity()
      ensures GetOldVariableSetIndex() == old(GetNewVariableSetIndex())
      ensures GetNewVariableSetIndex() == old(GetOldVariableSetIndex())
      ensures currentTime == old(currentTime) && objects == old(objects) && changedObjects == old(changedObjects)
    {
      variableSetIndex := if variableSetIndex != 0 then 0 else 1;
    }

    /** `o`'s old slot now holds what `getPosition` and `getVelocity`
        gave in the earlier state, stamped with the current time; its
        counters are as they were. */
    twostate predicate Refreshed(o: PhysicsObject)
      reads this, o, o.world
      requires old(Parity()) && old(o.Slots()) && o.world == this
    {
      var i := old(GetOldVariableSetIndex());
      o.position == old(o.position)[i := old(o.GetPosition())] &&
      o.velocity == old(o.velocity)[i := old(o.GetVelocity())] &&
      o.objectTime == old(o.objectTime)[i := currentTime] &&
      o.newStateCount == old(o.newStateCount) && o.latestUpdateTag == old(o.latestUpdateTag)
    }

    /** `setupNewState` has run on `o`: its new slot is a copy of its old
        slot, nothing is averaged into it yet, and nothing else of it
        changed. */
    twostate predicate SetUp(o: PhysicsObject)
      reads this, o
      requires old(Parity()) && old(o.Slots())
    {
      var i, n := old(GetOldVariableSetIndex()), old(GetNewVariableSetIndex());
      o.position == old(o.position)[n := old(o.position)[i]] &&
      o.velocity == old(o.velocity)[n := old(o.velocity)[i]] &&
      o.objectTime == old(o.objectTime)[n := old(o.objectTime)[i]] &&
      o.newStateCount == 0 && o.proposedPositions == [] && o.proposedVelocities == [] &&
      o.supported == old(o.supported) && o.destroyed == old(o.destroyed) &&
      o.latestUpdateTag == old(o.latestUpdateTag)
    }

    /** The purge loop of one relaxation iteration of `runToTime`: every
        destroyed object leaves the world's set, and every other one has
        its new slot set up for the narrow phase. */
    method PurgeAndSetup()
      requires Valid()
      modifies this, objects
      ensures Valid()
      ensures objects == set o | o in old(objects) && !old(o.destroyed)
      ensures forall o | o in objects :: SetUp(o) && o.Averaging()
      ensures forall o | o in old(objects) && old(o.destroyed) :: unchanged(o)
      ensures currentTime == old(currentTime) && variableSetIndex == old(variableSetIndex)
      ensures changedObjects == old(changedObjects)
    {
      var todo := objects;
      while todo != {}
        invariant todo <= old(objects)
        invariant Parity() && currentTime == old(currentTime) && variableSetIndex == old(variableSetIndex)
        invariant changedObjects == old(changedObjects)
        invariant objects == set o | o in old(objects) && (o in todo || !old(o.destroyed))
        invariant forall o | o in todo :: unchanged(o)
        invariant forall o | o in old(objects) && old(o.destroyed) :: unchanged(o)
        invariant forall o | o in old(objects) && o !in todo && !old(o.destroyed) ::
                    o.Slots() && SetUp(o) && o.Averaging()
        decreases todo
      {
        var o :| o in todo;
        todo := todo - {o};
        if o.destroyed {
          objects := objects - {o};
        } else {
          o.SetupNewState();
        }
      }
    }

    /** `order` lists every object of the world exactly once, as the
        vector that `runToTime` sorts does. */
    ghost predicate Enumerates(order: seq<PhysicsObject>)
      reads this
    {
      (forall i | 0 <= i < |order| :: order[i] in objects) &&
      (forall o | o in objects :: o in order) &&
      (forall i, j | 0 <= i < j < |order| :: order[i] != order[j])
    }

    /** The support pass of one relaxation iteration of `runToTime`, over
        the objects in `order` (which the source sorts by the bottom of
        their boxes, `getPosition().y - getExtents().y`; the pass itself
        does not rely on that order). Each object that is not destroyed
        has its old slot brought forward to the current time and is then
        marked supported when it is static and not Empty, or when it is
        supported by some non-destroyed object earlier in the order;
        destroyed objects are skipped. */
    method SupportPass(order: seq<PhysicsObject>)
      requires Valid() && Enumerates(order)
      modifies objects
      ensures Valid()
      ensures forall k | 0 <= k < |order| && order[k].destroyed :: unchanged(order[k])
      ensures forall k | 0 <= k < |order| && !order[k].destroyed :: Refreshed(order[k])
      ensures forall k | 0 <= k < |order| && !order[k].destroyed ::
                order[k].supported == SupportFlag(order[k].Snapshot(), Entries(order, this)[..k])
      ensures forall k | 0 <= k < |order| && !order[k].destroyed ::
                (order[k].shape == Empty ==> !order[k].supported) &&
                (order[k].isStatic && order[k].shape != Empty ==> order[k].supported)
    {
      ghost var entries := SupportLoop(order);
      assert Entries(order, this) == entries;
    }

    /** The loop of the support pass, with what it saw of each object of
        `order` in `entries`. */
    method SupportLoop(order: seq<PhysicsObject>) returns (ghost entries: seq<Option<Body>>)
      requires Valid() && Enumerates(order)
      modifies objects
      ensures Valid() && |entries| == |order|
      ensures forall k | 0 <= k < |order| && order[k].destroyed :: unchanged(order[k])
      ensures forall k | 0 <= k < |order| && !order[k].destroyed :: Refreshed(order[k])
      ensures forall k | 0 <= k < |order| :: entries[k] == Entry(order[k])
      ensures FlagsConsistent(entries)
    {
      entries := [];
      for k := 0 to |order|
        invariant Valid()
        invariant |entries| == k
        invariant forall i | k <= i < |order| :: unchanged(order[i])
        invariant forall i | 0 <= i < k && order[i].destroyed :: unchanged(order[i])
        invariant forall i | 0 <= i < k && !order[i].destroyed :: Refreshed(order[i])
        invariant forall i | 0 <= i < k :: entries[i] == Entry(order[i])
        invariant FlagsConsistent(entries)
      {
        SupportStep(order, k, entries);
        FlagsExtend(entries, Entry(order[k]));
        entries := entries + [Entry(order[k])];
      }
    }

    /** The body of the support pass for `order[k]`, given what the pass
        saw of the objects before it. */
    method SupportStep(order: seq<PhysicsObject>, k: nat, ghost entries: seq<Option<Body>>)
      requires Valid() && Enumerates(order) && k < |order| && |entries| == k
      requires forall i | 0 <= i < k :: entries[i] == Entry(order[i])
      modifies order[k]
      ensures Valid()
      ensures order[k].destroyed ==> unchanged(order[k])
      ensures !order[k].destroyed ==> Refreshed(order[k])
      ensures forall i | 0 <= i < k :: entries[i] == Entry(order[i])
      ensures Entry(order[k]).Some? ==> Entry(order[k]).value.supported == SupportFlag(Entry(order[k]).value, entries)
    {
      var a := order[k];
      assert forall i | 0 <= i < k :: order[i] != a;
      if !a.destroyed {
        a.RefreshForSupport(order[..k]);
        assert Entries(order[..k], this) == entries;
      }
    }
  }

  /** `PhysicsObject`: two slots of position, velocity and time (the old
      one read during a step, the new one built by `setNewState`), the
      object's fixed description, and its per-step flags and counters.
      The slot arrays are members of the object itself in the source, so
      they are sequences of length two here. */
  class PhysicsObject {
    var position: seq<Pos>
    var velocity: seq<Vec3>
    var objectTime: seq<real>
    const affectedByGravity: bool
    const isStatic: bool
    const shape: Shape
    const extents: Vec3
    const world: PhysicsWorld
    const properties: PhysicsProperties
    var supported: bool
    var destroyed: bool
    var latestUpdateTag: nat
    var newStateCount: nat
    /** The proposals `setNewState` has averaged since the last
        `setupNewState`. */
    ghost var proposedPositions: seq<Vec3>
    ghost var proposedVelocities: seq<Vec3>

    predicate Slots()
      reads this
    {
      |position| == 2 && |velocity| == 2 && |objectTime| == 2
    }

    /** What the factories guarantee: an Empty object is static, ignores
        gravity and has no extent. */
    predicate ShapeRules()
    {
      shape == Empty ==> isStatic && !affectedByGravity && extents == Zero
    }

    /** The new slot holds the mean of the proposals made so far, in the
        form that also covers no proposal at all. */
    ghost predicate Averaging()
      reads this, world
      requires Slots() && world.Parity()
    {
      var i := world.GetNewVariableSetIndex();
      |proposedPositions| == newStateCount && |proposedVelocities| == newStateCount &&
      Averages(position[i].v, proposedPositions) && Averages(velocity[i], proposedVelocities)
    }

    /** The private constructor: both slots hold the given position and
        velocity and the world's current time. */
    constructor(position: Pos, velocity: Vec3, affectedByGravity: bool, isStatic: bool, extents: Vec3,
                world: PhysicsWorld, properties: PhysicsProperties, shape: Shape)
      ensures Slots()
      ensures this.position == [position, position] && this.velocity == [velocity, velocity]
      ensures objectTime == [world.currentTime, world.currentTime]
      ensures this.affectedByGravity == affectedByGravity && this.isStatic == isStatic
      ensures this.extents == extents && this.world == world && this.properties == properties && this.shape == shape
      ensures !supported && !destroyed && latestUpdateTag == 0 && newStateCount == 0
      ensures proposedPositions == [] && proposedVelocities == []
    {
      this.position := [position, position];
      this.velocity := [velocity, velocity];
      objectTime := [world.currentTime, world.currentTime];
      this.affectedByGravity := affectedByGravity;
      this.isStatic := isStatic;
      this.shape := shape;
      this.extents := extents;
      this.world := world;
      this.properties := properties;
      supported := false;
      destroyed := false;
      latestUpdateTag := 0;
      newStateCount := 0;
      proposedPositions := [];
      proposedVelocities := [];
    }

    /** `makeBox`: a box object, registered with the world and reported
        as changed. */
    static method MakeBox(position: Pos, velocity: Vec3, affectedByGravity: bool, isStatic: bool, extents: Vec3,
                          properties: PhysicsProperties, world: PhysicsWorld) returns (o: PhysicsObject)
      requires world.Valid()
      modifies world
      ensures fresh(o) && world.Valid()
      ensures o.shape == Box && o.extents == extents && o.world == world
      ensures o.affectedByGravity == affectedByGravity && o.isStatic == isStatic && o.properties == properties
      ensures o.position == [position, position] && o.velocity == [velocity, velocity]
      ensures o.objectTime == [world.currentTime, world.currentTime]
      ensures !o.supported && !o.destroyed && o.newStateCount == 0 && o.latestUpdateTag == 0
      ensures world.objects == old(world.objects) + {o}
      ensures world.changedObjects == old(world.changedObjects) + {o}
      ensures world.currentTime == old(world.currentTime) && world.variableSetIndex == old(world.variableSetIndex)
    {
      o := new PhysicsObject(position, velocity, affectedByGravity, isStatic, extents, world, properties, Box);
      world.objects := world.objects + {o};
      world.changedObjects := world.changedObjects + {o};
    }

    /** `makeCylinder`: a vertical cylinder whose extents are the radius
        on x and z and the half-height on y, registered and reported as
        changed. */
    static method MakeCylinder(position: Pos, velocity: Vec3, affectedByGravity: bool, isStatic: bool,
                               radius: real, yExtents: real, properties: PhysicsProperties, world: PhysicsWorld)
      returns (o: PhysicsObject)
      requires world.Valid()
      modifies world
      ensures fresh(o) && world.Valid()
      ensures o.shape == Cylinder && o.extents == Vec3(radius, yExtents, radius) && o.world == world
      ensures o.affectedByGravity == affectedByGravity && o.isStatic == isStatic && o.properties == properties
      ensures o.position == [position, position] && o.velocity == [velocity, velocity]
      ensures o.objectTime == [world.currentTime, world.currentTime]
      ensures !o.supported && !o.destroyed && o.newStateCount == 0 && o.latestUpdateTag == 0
      ensures world.objects == old(world.objects) + {o}
      ensures world.changedObjects == old(world.changedObjects) + {o}
      ensures world.currentTime == old(world.currentTime) && world.variableSetIndex == old(world.variableSetIndex)
    {
      o := new PhysicsObject(position, velocity, affectedByGravity, isStatic, Vec3(radius, yExtents, radius),
                             world, properties, Cylinder);
      world.objects := world.objects + {o};
      world.changedObjects := world.changedObjects + {o};
    }

    /** `makeEmpty`: a static, gravity-free object with no extent and the
        default properties, registered with the world but not reported as
        changed. */
    static method MakeEmpty(position: Pos, velocity: Vec3, world: PhysicsWorld) returns (o: PhysicsObject)
      requires world.Valid()
      modifies world
      ensures fresh(o) && world.Valid()
      ensures o.shape == Empty && o.isStatic && !o.affectedByGravity && o.extents == Zero
      ensures o.properties == DefaultProperties && o.world == world
      ensures o.position == [position, position] && o.velocity == [velocity, velocity]
      ensures o.objectTime == [world.currentTime, world.currentTime]
      ensures !o.supported && !o.destroyed && o.newStateCount == 0 && o.latestUpdateTag == 0
      ensures world.objects == old(world.objects) + {o}
      ensures world.changedObjects == old(world.changedObjects)
      ensures world.currentTime == old(world.currentTime) && world.variableSetIndex == old(world.variableSetIndex)
    {
      o := new PhysicsObject(position, velocity, false, true, Zero, world, DefaultProperties, Empty);
      world.objects := world.objects + {o};
    }

    /** Time since the old slot was written. */
    function DeltaTime(): real
      reads this, world
      requires Slots() && world.Parity()
    {
      world.currentTime - objectTime[world.GetOldVariableSetIndex()]
    }

    /** Whether the object is in free fall. */
    predicate Falling()
      reads this
    {
      affectedByGravity && !supported
    }

    /** `getPosition`: the old slot's position carried forward to the
        world's current time, under gravity while falling. */
    function GetPosition(): (p: Pos)
      reads this, world
      requires Slots() && world.Parity()
      ensures p.d == position[world.GetOldVariableSetIndex()].d
      ensures DeltaTime() == 0.0 ==> p == position[world.GetOldVariableSetIndex()]
    {
      var i, dt := world.GetOldVariableSetIndex(), DeltaTime();
      var moved := position[i].v.Plus(velocity[i].Scale(dt));
      if Falling() then Pos(moved.Plus(world.gravity.Scale(0.5 * dt * dt)), position[i].d)
      else Pos(moved, position[i].d)
    }

    /** `getVelocity`: the old slot's velocity, accelerated by gravity for
        the elapsed time while falling. */
    function GetVelocity(): (v: Vec3)
      reads this, world
      requires Slots() && world.Parity()
      ensures DeltaTime() == 0.0 || !Falling() ==> v == velocity[world.GetOldVariableSetIndex()]
    {
      var i := world.GetOldVariableSetIndex();
      if !Falling() then velocity[i]
      else velocity[i].Plus(world.gravity.Scale(DeltaTime()))
    }

    /** The two extrapolations agree: the distance travelled since the
        old slot was written is the elapsed time times the mean of the
        stored and the current velocity, as for any constant
        acceleration. */
    lemma PositionFollowsVelocity()
      requires Slots() && world.Parity()
      ensures var i := world.GetOldVariableSetIndex();
              GetPosition().v.Minus(position[i].v) == velocity[i].Plus(GetVelocity()).Scale(DeltaTime() / 2.0)
    {
      var i, dt := world.GetOldVariableSetIndex(), DeltaTime();
      var v0, g := velocity[i], world.gravity;
      if Falling() {
        assert GetVelocity() == v0.Plus(g.Scale(dt));
        assert (dt / 2.0) * (v0.x + (v0.x + dt * g.x)) == dt * v0.x + 0.5 * dt * dt * g.x;
        assert (dt / 2.0) * (v0.y + (v0.y + dt * g.y)) == dt * v0.y + 0.5 * dt * dt * g.y;
        assert (dt / 2.0) * (v0.z + (v0.z + dt * g.z)) == dt * v0.z + 0.5 * dt * dt * g.z;
      }
    }

    /** What `collides` and `isSupportedBy` see of the object. */
    function Snapshot(): (b: Body)
      reads this, world
      requires Slots() && world.Parity()
      ensures b.shape == shape && b.extents == extents && b.isStatic == isStatic && b.supported == supported
    {
      Body(shape, GetPosition(), extents, isStatic, supported)
    }

    /** `destroy`. */
    method Destroy()
      modifies this
      ensures destroyed
      ensures position == old(position) && velocity == old(velocity) && objectTime == old(objectTime)
      ensures supported == old(supported) && latestUpdateTag == old(latestUpdateTag) && newStateCount == old(newStateCount)
    {
      destroyed := true;
    }

    /** One step of the support pass: the old slot is brought forward to
        the current time, then the supported flag is cleared and set
        again when the object is static and not Empty, or is supported by
        some non-destroyed object of `earlier`. */
    method RefreshForSupport(earlier: seq<PhysicsObject>)
      requires Slots() && Readable(earlier, world) && this !in earlier
      modifies this
      ensures Slots()
      ensures var i := world.GetOldVariableSetIndex();
              position == old(position)[i := old(GetPosition())] &&
              velocity == old(velocity)[i := old(GetVelocity())] &&
              objectTime == old(objectTime)[i := world.currentTime]
      ensures supported == SupportFlag(Snapshot(), Entries(earlier, world))
      ensures destroyed == old(destroyed) && newStateCount == old(newStateCount) && latestUpdateTag == old(latestUpdateTag)
    {
      AdvanceOldSlot();
      SetSupportFlag(earlier);
    }

    /** The second half of a support-pass step: the supported flag is
        cleared and set again from `earlier`; nothing else changes. The
        old slot is already current, so the flag does not move the object. */
    method SetSupportFlag(earlier: seq<PhysicsObject>)
      requires Slots() && Readable(earlier, world) && this !in earlier
      requires DeltaTime() == 0.0
      modifies this
      ensures Slots()
      ensures supported == SupportFlag(Snapshot(), Entries(earlier, world))
      ensures position == old(position) && velocity == old(velocity) && objectTime == old(objectTime)
      ensures destroyed == old(destroyed) && newStateCount == old(newStateCount) && latestUpdateTag == old(latestUpdateTag)
    {
      ghost var es := Entries(earlier, world);
      var a := Snapshot();
      var flag := false;
      if shape == Empty {
      } else if isStatic {
        flag := true;
      } else {
        flag := SupportedByAny(a.(supported := false), earlier, world);
      }
      SupportFlagIgnoresFlag(a, es, flag);
      assert a.position == position[world.GetOldVariableSetIndex()];
      supported := flag;
      assert GetPosition() == position[world.GetOldVariableSetIndex()];
      assert Snapshot() == a.(supported := flag);
    }

    /** The first half of a support-pass step: the old slot is brought
        forward to the current time; nothing else changes. */
    method AdvanceOldSlot()
      requires Slots() && world.Parity()
      modifies this
      ensures Slots()
      ensures var i := world.GetOldVariableSetIndex();
              position == old(position)[i := old(GetPosition())] &&
              velocity == old(velocity)[i := old(GetVelocity())] &&
              objectTime == old(objectTime)[i := world.currentTime]
      ensures supported == old(supported) && destroyed == old(destroyed)
      ensures newStateCount == old(newStateCount) && latestUpdateTag == old(latestUpdateTag)
    {
      var i := world.GetOldVariableSetIndex();
      var p, v := GetPosition(), GetVelocity();
      position := position[i := p];
      velocity := velocity[i := v];
      objectTime := objectTime[i := world.currentTime];
    }

    /** `setupNewState`: the new slot starts as a copy of the old one and
        no proposal has been averaged yet; the old slot is untouched. */
    method SetupNewState()
      requires Slots() && world.Parity()
      modifies this
      ensures Slots() && Averaging()
      ensures var o, n := world.GetOldVariableSetIndex(), world.GetNewVariableSetIndex();
              position == old(position)[n := old(position)[o]] &&
              velocity == old(velocity)[n := old(velocity)[o]] &&
              objectTime == old(objectTime)[n := old(objectTime)[o]]
      ensures newStateCount == 0 && proposedPositions == [] && proposedVelocities == []
      ensures supported == old(supported) && destroyed == old(destroyed) && latestUpdateTag == old(latestUpdateTag)
    {
      var o, n := world.GetOldVariableSetIndex(), world.GetNewVariableSetIndex();
      objectTime := objectTime[n := objectTime[o]];
      position := position[n := position[o]];
      velocity := velocity[n := velocity[o]];
      newStateCount := 0;
      proposedPositions := [];
      proposedVelocities := [];
    }

    /** `setNewState`: folds one more proposal into the new slot's running
        average, stamps the new slot with the world's time, bumps the
        update tag and reports the object as changed. The averaged
        position keeps the proposal's dimension. */
    method SetNewState(newPosition: Pos, newVelocity: Vec3)
      requires Slots() && world.Parity() && Averaging()
      modifies this, world`changedObjects
      ensures Slots() && Averaging()
      ensures proposedPositions == old(proposedPositions) + [newPosition.v]
      ensures proposedVelocities == old(proposedVelocities) + [newVelocity]
      ensures var n := world.GetNewVariableSetIndex();
              position == old(position)[n := Pos(Mean(proposedPositions), newPosition.d)] &&
              velocity == old(velocity)[n := Mean(proposedVelocities)] &&
              objectTime == old(objectTime)[n := world.currentTime]
      ensures newStateCount == old(newStateCount) + 1 && latestUpdateTag == old(latestUpdateTag) + 1
      ensures supported == old(supported) && destroyed == old(destroyed)
      ensures world.changedObjects == old(world.changedObjects) + {this}
    {
      AverageIn(newPosition, newVelocity);
      objectTime := objectTime[world.GetNewVariableSetIndex() := world.currentTime];
      world.changedObjects := world.changedObjects + {this};
      latestUpdateTag := latestUpdateTag + 1;
    }

    /** The accumulating half of `setNewState`: the proposal is averaged
        into the new slot's position and velocity; nothing else changes. */
    method AverageIn(newPosition: Pos, newVelocity: Vec3)
      requires Slots() && world.Parity() && Averaging()
      modifies this
      ensures Slots() && Averaging()
      ensures proposedPositions == old(proposedPositions) + [newPosition.v]
      ensures proposedVelocities == old(proposedVelocities) + [newVelocity]
      ensures var n := world.GetNewVariableSetIndex();
              position == old(position)[n := Pos(Mean(proposedPositions), newPosition.d)] &&
              velocity == old(velocity)[n := Mean(proposedVelocities)]
      ensures newStateCount == old(newStateCount) + 1 && objectTime == old(objectTime)
      ensures supported == old(supported) && destroyed == old(destroyed) && latestUpdateTag == old(latestUpdateTag)
    {
      var n := world.GetNewVariableSetIndex();
      RunningAverageIsMean(proposedPositions, position[n].v, newPosition.v);
      RunningAverageIsMean(proposedVelocities, velocity[n], newVelocity);
      var p := RunningAverage(newPosition.v, position[n].v, newStateCount);
      var v := RunningAverage(newVelocity, velocity[n], newStateCount);
      assert Averages(p, proposedPositions + [newPosition.v]) && Averages(v, proposedVelocities + [newVelocity]);
      newStateCount := newStateCount + 1;
      position := position[n := Pos(p, newPosition.d)];
      velocity := velocity[n := v];
      proposedPositions := proposedPositions + [newPosition.v];
      proposedVelocities := proposedVelocities + [newVelocity];
    }

    /** `adjustPosition` against `rt`: a static object is never moved;
        any other records the corrected position and velocity (computed
        by the collision response, which is not part of this model) as a
        new-state proposal. */
    method AdjustPosition(rt: PhysicsObject, correctedPosition: Pos, correctedVelocity: Vec3)
      requires Slots() && world.Parity() && Averaging()
      modifies this, world`changedObjects
      ensures Slots() && Averaging()
      ensures isStatic ==> unchanged(this) && unchanged(world)
      ensures !isStatic ==> proposedPositions == old(proposedPositions) + [correctedPosition.v] &&
                            proposedVelocities == old(proposedVelocities) + [correctedVelocity] &&
                            newStateCount == old(newStateCount) + 1 &&
                            latestUpdateTag == old(latestUpdateTag) + 1 &&
                            world.changedObjects == old(world.changedObjects) + {this}
    {
      if isStatic {
        return;
      }
      SetNewState(correctedPosition, correctedVelocity);
    }
  }

  /** Every object of `objs` belongs to `w` and has its two slots. */
  predicate Readable(objs: seq<PhysicsObject>, w: PhysicsWorld)
    reads objs, w
  {
    w.Parity() && forall o | o in objs :: o.world == w && o.Slots()
  }

  /** What the support pass sees of one object of its order: nothing for
      a destroyed object, which it skips, and the object's snapshot
      otherwise. */
  function Entry(o: PhysicsObject): Option<Body>
    reads o, o.world
    requires o.Slots() && o.world.Parity()
  {
    if o.destroyed then None else Some(o.Snapshot())
  }

  /** `Entry` of each object, in order. */
  function Entries(objs: seq<PhysicsObject>, w: PhysicsWorld): (r: seq<Option<Body>>)
    reads objs, w
    requires Readable(objs, w)
    ensures |r| == |objs|
    ensures forall i | 0 <= i < |objs| :: r[i] == Entry(objs[i])
  {
    if objs == [] then [] else Entries(objs[..|objs| - 1], w) + [Entry(objs[|objs| - 1])]
  }

  /** Every entry of `entries` carries the flag the support pass gives it
      from the entries before it. */
  ghost predicate FlagsConsistent(entries: seq<Option<Body>>)
  {
    forall i | 0 <= i < |entries| && entries[i].Some? ::
      entries[i].value.supported == SupportFlag(entries[i].value, entries[..i])
  }

  /** Appending an entry flagged from all the entries before it keeps the
      flags consistent. */
  lemma FlagsExtend(entries: seq<Option<Body>>, x: Option<Body>)
    requires FlagsConsistent(entries)
    requires x.Some? ==> x.value.supported == SupportFlag(x.value, entries)
    ensures FlagsConsistent(entries + [x])
  {
    var e := entries + [x];
    assert forall i | 0 <= i <= |entries| :: e[..i] == entries[..i];
  }

  /** The flag an object already carries plays no part in the flag the
      support pass gives it. */
  lemma SupportFlagIgnoresFlag(a: Body, earlier: seq<Option<Body>>, b: bool)
    ensures SupportFlag(a.(supported := b), earlier) == SupportFlag(a, earlier)
  {
    assert a.(supported := b).(supported := false) == a.(supported := false);
  }

  /** Whether some entry of `bs` supports `a`. */
  predicate SupportedByAnyOf(a: Body, bs: seq<Option<Body>>)
  {
    exists j | 0 <= j < |bs| :: bs[j].Some? && SupportedBy(a, bs[j].value)
  }

  /** The flag the support pass gives an object whose snapshot is `a` when
      `earlier` are the entries before it in the pass's order: never for an
      Empty object, always for any other static one, and otherwise when
      some non-destroyed earlier object supports it. */
  predicate SupportFlag(a: Body, earlier: seq<Option<Body>>)
  {
    if a.shape == Empty then false
    else if a.isStatic then true
    else SupportedByAnyOf(a.(supported := false), earlier)
  }

  /** The inner loop of the support pass: whether any non-destroyed object
      of `earlier` supports `a`. Like the source, it visits every one of
      them. */
  method SupportedByAny(a: Body, earlier: seq<PhysicsObject>, world: PhysicsWorld) returns (s: bool)
    requires Readable(earlier, world)
    ensures s == SupportedByAnyOf(a, Entries(earlier, world))
  {
    s := false;
    ghost var bs := Entries(earlier, world);
    for j := 0 to |earlier|
      invariant s == SupportedByAnyOf(a, bs[..j])
    {
      assert bs[..j + 1] == bs[..j] + [bs[j]];
      if !earlier[j].destroyed && SupportedBy(a, earlier[j].Snapshot()) {
        s := true;
      }
    }
    assert bs[..|earlier|] == bs;
  }
}
