/**
 * The ice-spikes ability (IceSpikesAbility): a line of spikes laid out
 * along the caster's forward axis inside a cone, one spawned every
 * spawnDelay seconds. Spike i of n stands at i/n of the maximum distance,
 * is tilted by a lerp from 60 to 10 degrees, and damages the enemy that
 * touches it.
 *
 * The random draws (the crystal height and one yaw per spike), the unit
 * ring of the crystal base and the world direction `rotation * forward` of
 * each spike's rotation are parameters: trigonometry and quaternion
 * arithmetic are not modelled. The coroutine's waits are modelled by the
 * time at which each spike is spawned.
 */
module IceSpikesAbility {
  import opened Scene
  import opened Hits
  import opened IceCrystals
  import opened IceSpikes
  import opened AbilityData
  import opened AbilitySlots

  /** The fraction of the cone at which spike i of `count` stands, as a float division. */
  function Fraction(i: nat, count: int): real
    requires i < count
  {
    i as real / count as real
  }

  /** How far from the origin spike i stands. */
  function Distance(i: nat, count: int, maxDistance: real): real
    requires i < count
  {
    Fraction(i, count) * maxDistance
  }

  /** How far spike i is tilted forward, in degrees. */
  function Tilt(i: nat, count: int): real
    requires i < count
  {
    Lerp(60.0, 10.0, Fraction(i, count))
  }

  /**
   * The nominal seconds after the trigger at which each of `count` spikes is
   * spawned: i waits of spawnDelay. Each WaitForSeconds resumes on the first
   * frame after its delay, so a spike appears at or after its nominal time.
   */
  function SpawnTimes(count: nat, spawnDelay: real): (r: seq<real>)
    ensures |r| == count
    ensures count > 0 ==> r[0] == 0.0
    ensures spawnDelay > 0.0 ==> forall i, j :: 0 <= i < j < count ==> r[i] < r[j]
  {
    var r := seq(count, i requires 0 <= i < count => i as real * spawnDelay);
    forall i, j | 0 <= i < j < count && spawnDelay > 0.0
      ensures r[i] < r[j]
    {
      LaterWaitIsLonger(i, j, spawnDelay);
    }
    r
  }

  /** More waits of a positive delay take longer. */
  lemma LaterWaitIsLonger(i: nat, j: nat, spawnDelay: real)
    requires i < j
    ensures spawnDelay > 0.0 ==> i as real * spawnDelay < j as real * spawnDelay
  {
    if spawnDelay > 0.0 {
      assert j as real * spawnDelay == i as real * spawnDelay + (j - i) as real * spawnDelay;
    }
  }

  /** The origin of the cone: the spawn point dropped to the ground plane. */
  function Origin(spawnPosition: Vec3): Vec3
  {
    Vec3(spawnPosition.x, 0.0, spawnPosition.z)
  }

  lemma FractionStepsUp(i: nat, j: nat, count: int)
    requires i < j < count
    ensures 0.0 <= Fraction(i, count) < Fraction(j, count) < 1.0
  {
    var c := count as real;
    assert i as real < j as real < c;
    assert i as real / c < j as real / c;
    assert j as real / c < c / c;
  }

  /**
   * The spikes spread outwards: the first stands at the origin, every later
   * spike strictly further away, and none reaches the maximum distance.
   */
  lemma DistancesSpreadOut(i: nat, j: nat, count: int, maxDistance: real)
    requires i < j < count && maxDistance > 0.0
    ensures Distance(0, count, maxDistance) == 0.0
    ensures 0.0 <= Distance(i, count, maxDistance) < Distance(j, count, maxDistance) < maxDistance
  {
    FractionStepsUp(i, j, count);
    var fi, fj := Fraction(i, count), Fraction(j, count);
    assert fi * maxDistance < fj * maxDistance;
    assert fj * maxDistance < 1.0 * maxDistance;
  }

  /**
   * The tilt flattens outwards: the first spike leans 60 degrees, every
   * later spike strictly less, and none gets down to 10 degrees.
   */
  lemma TiltsFlatten(i: nat, j: nat, count: int)
    requires i < j < count
    ensures Tilt(0, count) == 60.0
    ensures 10.0 < Tilt(j, count) < Tilt(i, count) <= 60.0
  {
    FractionStepsUp(i, j, count);
    assert Clamp01(Fraction(i, count)) == Fraction(i, count);
    assert Clamp01(Fraction(j, count)) == Fraction(j, count);
  }

  /**
   * A spike whose heading is a horizontal unit vector stands on the ground
   * plane, Distance away from the origin.
   */
  lemma SpikeOnGround(origin: Vec3, heading: Vec3, distance: real)
    requires origin.y == 0.0 && heading.y == 0.0 && heading.SqrMagnitude() == 1.0
    ensures var at := origin.Plus(heading.Times(distance));
      at.y == 0.0 && Vec3(at.x - origin.x, 0.0, at.z - origin.z).SqrMagnitude() == distance * distance
  {
    var h := heading;
    calc {
      (h.x * distance) * (h.x * distance) + 0.0 * 0.0 + (h.z * distance) * (h.z * distance);
      (h.x * h.x + h.z * h.z) * (distance * distance);
      { assert h.x * h.x + h.z * h.z == 1.0; }
      distance * distance;
    }
  }

  /**
   * With the defaults (10 spikes, 9 units, 0.05 s apart) spike i stands at
   * 0.9 * i, leans 60 - 5 * i degrees and is nominally spawned at 0.05 * i;
   * the last one is nominally spawned at 0.45 s and gone 0.6 s later.
   */
  lemma DefaultLayout(i: nat)
    requires i < 10
    ensures Distance(i, 10, 9.0) == 0.9 * i as real
    ensures Tilt(i, 10) == 60.0 - 5.0 * i as real
    ensures SpawnTimes(10, 0.05)[i] == 0.05 * i as real
    ensures SpawnTimes(10, 0.05)[9] + RiseDuration + SinkDelay + SinkDuration == 1.05
  {
    assert Clamp01(Fraction(i, 10)) == Fraction(i, 10) == i as real / 10.0;
  }

  /** The first three spikes of a default cast are spawned at 0, 0.05 and 0.10 s. */
  lemma ThreeSpikeSchedule()
    ensures SpawnTimes(3, 0.05) == [0.0, 0.05, 0.10]
  {
  }

  /** The state of a spike and its crystal that the coroutine sets up. */
  datatype SpikeView = SpikeView(
    position: Vec3,
    rotation: Rotation,
    scale: real,
    vertices: seq<Vec3>,
    triangles: seq<int>,
    sizeMultiplier: real,
    startPosition: Vec3,
    riseTargetY: real,
    sinkTargetY: real,
    phase: Phase,
    onSpikeHit: Option<HitHandler>,
    reported: seq<Collider>)

  function View(spike: IceSpike): SpikeView
    reads spike, spike.body, spike.body.vertices, spike.body.triangles
  {
    SpikeView(spike.body.position, spike.body.rotation, spike.body.scale,
              spike.body.vertices[..], spike.body.triangles[..],
              spike.sizeMultiplier, spike.startPosition, spike.riseTargetY, spike.sinkTargetY,
              spike.phase, spike.onSpikeHit, spike.reported)
  }

  /**
   * One cast of the ability: the ability, the cone's origin and axis, and
   * the random draws (the crystal height and one yaw per spike), with the
   * unit base ring of the crystal and the world direction of each spike's
   * rotation.
   */
  datatype Cast = Cast(
    ability: Ability,
    origin: Vec3,
    forward: Vec3,
    randomSize: real,
    angles: seq<real>,
    headings: seq<Vec3>,
    ring: seq<Vec2>)
  {
    /**
     * The draws the coroutine makes: Random.Range keeps them within bounds,
     * one per spike, and each spike's heading is a unit vector. The heading
     * is the forward axis turned about the vertical by the spike's yaw, so
     * its height component is the forward axis's.
     */
    predicate Drawn()
    {
      && ability.IceSpikes?
      && InRange(randomSize, ability.spikeSize, ability.spikeSize + 0.2)
      && |angles| == |headings| == (if ability.spikeCount > 0 then ability.spikeCount else 0)
      && (forall i :: 0 <= i < |angles| ==> InRange(angles[i], -ability.coneAngle / 2.0, ability.coneAngle / 2.0))
      // rotation * Vector3.forward is a unit vector
      && (forall i :: 0 <= i < |headings| ==> headings[i].SqrMagnitude() == 1.0)
      // Euler(0, yaw, 0) keeps the y component of LookRotation(forward) * Vector3.forward
      && (forall i :: 0 <= i < |headings| ==> headings[i].y == forward.y)
      && (ability.spikeSides >= 0 ==> |ring| == ability.spikeSides)
    }
  }

  /**
   * What the coroutine leaves spike i as: its crystal, of the generator's
   * mesh, buried `spikeSize` below its place on the cone and tilted; rising
   * 0.9 * spikeSize and then sinking by spikeSize; subscribed to
   * HandleSpikeHit; nothing reported yet.
   */
  function Expected(cast: Cast, i: nat): (v: SpikeView)
    requires cast.Drawn() && i < |cast.angles| && cast.ability.spikeSides >= 0
    ensures v.riseTargetY - v.position.y == 0.9 * cast.ability.spikeSize
    ensures v.riseTargetY - v.sinkTargetY == cast.ability.spikeSize
  {
    var ability := cast.ability;
    var at := cast.origin.Plus(cast.headings[i].Times(Distance(i, ability.spikeCount, ability.maxDistance)));
    var size := ability.spikeSize;
    SpikeView(
      Vec3(at.x, at.y - size, at.z),
      Then(YawOfLook(cast.angles[i], cast.forward), Vec3(Tilt(i, ability.spikeCount), 0.0, 0.0)),
      size,
      Vertices(ability.spikeSides, size * 0.3, cast.randomSize, cast.ring),
      Triangles(ability.spikeSides),
      size,
      Vec3(at.x, at.y - 0.1 * size, at.z),
      at.y - 0.1 * size,
      at.y - 1.1 * size,
      Rising,
      Some(HandleSpikeHit(ability.spikeDamage)),
      [])
  }

  /**
   * Spike i stands Distance(i) from the cone's origin: its buried crystal
   * is spikeSize straight below that point, and with a horizontal heading,
   * which a horizontal forward axis gives, that point is on the origin's
   * ground plane.
   */
  lemma ExpectedSpikeDistance(cast: Cast, i: nat)
    requires cast.Drawn() && i < |cast.angles| && cast.ability.spikeSides >= 0
    ensures var v, size := Expected(cast, i), cast.ability.spikeSize;
      var d := Distance(i, cast.ability.spikeCount, cast.ability.maxDistance);
      Vec3(v.position.x - cast.origin.x, v.position.y + size - cast.origin.y, v.position.z - cast.origin.z)
        .SqrMagnitude() == d * d
    ensures cast.headings[i].y == 0.0 ==> Expected(cast, i).position.y == cast.origin.y - cast.ability.spikeSize
    ensures cast.forward.y == 0.0 ==> Expected(cast, i).position.y == cast.origin.y - cast.ability.spikeSize
  {
    var v, size := Expected(cast, i), cast.ability.spikeSize;
    var d := Distance(i, cast.ability.spikeCount, cast.ability.maxDistance);
    var h := cast.headings[i];
    assert Vec3(v.position.x - cast.origin.x, v.position.y + size - cast.origin.y, v.position.z - cast.origin.z)
           == h.Times(d);
    ScaledLength(h, d);
  }

  /** A unit vector scaled by d has length d. */
  lemma ScaledLength(h: Vec3, d: real)
    requires h.SqrMagnitude() == 1.0
    ensures h.Times(d).SqrMagnitude() == d * d
  {
    calc {
      h.Times(d).SqrMagnitude();
      (h.x * d) * (h.x * d) + (h.y * d) * (h.y * d) + (h.z * d) * (h.z * d);
      (h.x * h.x + h.y * h.y + h.z * h.z) * (d * d);
      { assert h.x * h.x + h.y * h.y + h.z * h.z == 1.0; }
      d * d;
    }
  }

  /**
   * One pass of the coroutine's loop: generate the crystal at the spike's
   * position and rotation, tilt it, attach the spike script, bury it, start
   * its animation and subscribe HandleSpikeHit. Only new objects change.
   * A negative side count makes Generate throw: null, and the coroutine ends.
   */
  method SpawnSpike(cast: Cast, generator: IceCrystalGenerator, i: nat) returns (spike: IceSpike?)
    requires cast.Drawn() && i < |cast.angles|
    requires generator.numberOfSides == cast.ability.spikeSides
    requires generator.baseRadius == cast.ability.spikeSize * 0.3 && generator.height == cast.randomSize
    ensures spike == null <==> cast.ability.spikeSides < 0
    ensures spike != null ==> fresh(spike) && fresh(spike.body) && View(spike) == Expected(cast, i)
  {
    var ability := cast.ability;
    var rotation := YawOfLook(cast.angles[i], cast.forward);
    var position := cast.origin.Plus(cast.headings[i].Times(Distance(i, ability.spikeCount, ability.maxDistance)));
    var crystal := generator.Generate(position, rotation, cast.ring);
    if crystal == null {
      return null;
    }
    crystal.rotation := Then(crystal.rotation, Vec3(Tilt(i, ability.spikeCount), 0.0, 0.0));
    spike := new IceSpike(crystal);
    spike.Initialize(ability.spikeSize);
    spike.AnimateSpike();
    spike.Subscribe(HandleSpikeHit(ability.spikeDamage));
  }

  /**
   * SpawnSpikes: one crystal generator of radius 0.3 * spikeSize and the
   * drawn height for the whole cast, then spike after spike, each a fresh
   * object with its own fresh crystal, set up as Expected says; spike i is
   * spawned at the nominal time SpawnTimes(..)[i].
   */
  method SpawnSpikes(cast: Cast) returns (spikes: seq<IceSpike>, times: seq<real>)
    requires cast.Drawn()
    ensures |spikes| == (if cast.ability.spikeSides < 0 then 0 else |cast.angles|)
    ensures times == SpawnTimes(|spikes|, cast.ability.spawnDelay)
    ensures forall i :: 0 <= i < |spikes| ==> fresh(spikes[i]) && fresh(spikes[i].body)
    ensures forall i, j :: 0 <= i < j < |spikes| ==> spikes[i] != spikes[j] && spikes[i].body != spikes[j].body
    ensures forall i :: 0 <= i < |spikes| ==> View(spikes[i]) == Expected(cast, i)
  {
    var generator := new IceCrystalGenerator(cast.ability.spikeSides, cast.ability.spikeSize * 0.3, cast.randomSize);
    spikes := [];
    while |spikes| < |cast.angles|
      invariant |spikes| <= |cast.angles|
      invariant cast.ability.spikeSides < 0 ==> spikes == []
      invariant forall k :: 0 <= k < |spikes| ==> fresh(spikes[k]) && fresh(spikes[k].body)
      invariant forall k, l :: 0 <= k < l < |spikes| ==> spikes[k].body != spikes[l].body
      invariant forall k :: 0 <= k < |spikes| ==> View(spikes[k]) == Expected(cast, k)
    {
      var spike := SpawnSpike(cast, generator, |spikes|);
      if spike == null {
        break;
      }
      spikes := spikes + [spike];
    }
    times := SpawnTimes(|spikes|, cast.ability.spawnDelay);
  }

  /**
   * TriggerAbility: start SpawnSpikes on the holder from the spawn point
   * dropped to the ground, along the spawn point's forward axis. The holder
   * is only read.
   */
  method TriggerAbility(ability: Ability, holder: AbilityHolder, randomSize: real,
                        angles: seq<real>, headings: seq<Vec3>, ring: seq<Vec2>)
    returns (cast: Cast, spikes: seq<IceSpike>, times: seq<real>)
    requires Cast(ability, Origin(holder.SpawnPoint().position), holder.SpawnPoint().forward,
                  randomSize, angles, headings, ring).Drawn()
    ensures cast.origin == Origin(holder.SpawnPoint().position) && cast.forward == holder.SpawnPoint().forward
    ensures cast.ability == ability && cast.randomSize == randomSize
    ensures cast.angles == angles && cast.headings == headings && cast.ring == ring
    ensures |spikes| == (if ability.spikeSides < 0 then 0 else |angles|)
    ensures times == SpawnTimes(|spikes|, ability.spawnDelay)
    ensures forall i :: 0 <= i < |spikes| ==> fresh(spikes[i]) && fresh(spikes[i].body)
    ensures forall i, j :: 0 <= i < j < |spikes| ==> spikes[i] != spikes[j] && spikes[i].body != spikes[j].body
    ensures forall i :: 0 <= i < |spikes| ==> View(spikes[i]) == Expected(cast, i)
  {
    var at := holder.SpawnPoint();
    cast := Cast(ability, Origin(at.position), at.forward, randomSize, angles, headings, ring);
    spikes, times := SpawnSpikes(cast);
  }
}
