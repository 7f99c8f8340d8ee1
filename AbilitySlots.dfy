/**
 * The ability slot manager (AbilityHolder): a fixed array of equipped
 * abilities, one trigger key per slot, and a dictionary of remaining
 * cooldowns keyed by slot index.
 *
 * Each frame, Update first decrements every cooldown that is still positive
 * (with no clamp at 0) and then, slot by slot, triggers each slot whose key
 * went down this frame, that holds an ability and that is not on cooldown;
 * triggering calls the ability's TriggerAbility(this) and then sets the
 * slot's cooldown to the ability's base cooldown.
 *
 * The call into the ability is recorded in `invocations`; what each ability
 * then does is modelled in FireballAbility and IceSpikesAbility, whose
 * methods may read the holder but cannot change it. Notifications to the HUD
 * ability bar and error logs are recorded in `events`.
 */
module AbilitySlots {
  import opened Scene
  import opened AbilityData

  datatype DisplayEvent =
    | KeysAssigned(keys: seq<int>)                              // the bar learns the slot keys
    | SlotAssigned(ability: Option<Ability>, slot: int)          // the bar shows a slot's ability
    | CooldownProgress(slot: int, remaining: real, total: real)  // the bar shows a slot's cooldown
    | InvalidSlotIndex                                           // error log of Equip/Unequip

  /** One call of TriggerAbility(holder) on the ability of a slot. */
  datatype Invocation = Invocation(slot: nat, ability: Ability)

  /** IsAbilityOnCooldown: the slot has a cooldown entry and it is positive. */
  predicate OnCooldown(cooldowns: map<int, real>, slot: int)
  {
    slot in cooldowns && cooldowns[slot] > 0.0
  }

  /**
   * UpdateCooldowns fails with a null reference at `key` when the bar is
   * bound, the key is on cooldown and its slot is empty: the progress
   * notification reads the empty slot's base cooldown. (Equip with no
   * ability keeps the slot's cooldown, so this can happen.)
   */
  predicate FaultsAt(slots: seq<Option<Ability>>, cooldowns: map<int, real>, barBound: bool, key: int)
    requires 0 <= key < |slots|
  {
    barBound && OnCooldown(cooldowns, key) && slots[key].None?
  }

  /** The first key at or after `from` where UpdateCooldowns faults, if any (see FirstFaultIsFirst). */
  function FirstFault(slots: seq<Option<Ability>>, cooldowns: map<int, real>, barBound: bool, from: nat)
    : (r: Option<nat>)
    requires from <= |slots|
    decreases |slots| - from
    ensures r.Some? ==> from <= r.value < |slots|
  {
    if from == |slots| then None
    else if FaultsAt(slots, cooldowns, barBound, from) then Some(from)
    else FirstFault(slots, cooldowns, barBound, from + 1)
  }

  /** FirstFault finds the first faulting key from `from` on, and None means no key faults. */
  lemma {:induction false} FirstFaultIsFirst(slots: seq<Option<Ability>>, cooldowns: map<int, real>,
                                             barBound: bool, from: nat)
    requires from <= |slots|
    decreases |slots| - from
    ensures var r := FirstFault(slots, cooldowns, barBound, from);
      && (r.Some? ==> from <= r.value < |slots| && FaultsAt(slots, cooldowns, barBound, r.value))
      && (r.Some? ==> forall j :: from <= j < r.value ==> !FaultsAt(slots, cooldowns, barBound, j))
      && (r.None? ==> forall j :: from <= j < |slots| ==> !FaultsAt(slots, cooldowns, barBound, j))
  {
    if from < |slots| && !FaultsAt(slots, cooldowns, barBound, from) {
      FirstFaultIsFirst(slots, cooldowns, barBound, from + 1);
    }
  }

  /** The cooldowns once the keys below `stop` have been visited by UpdateCooldowns. */
  function Decremented(cooldowns: map<int, real>, stop: int, dt: real): map<int, real>
  {
    map k | k in cooldowns :: if k < stop && cooldowns[k] > 0.0 then cooldowns[k] - dt else cooldowns[k]
  }

  /** The progress notifications UpdateCooldowns sends for the keys below `stop`. */
  function ProgressEvents(slots: seq<Option<Ability>>, cooldowns: map<int, real>, dt: real, barBound: bool,
                          stop: nat): seq<DisplayEvent>
    requires stop <= |slots|
  {
    if stop == 0 then []
    else
      var k := stop - 1;
      ProgressEvents(slots, cooldowns, dt, barBound, k)
      + (if barBound && OnCooldown(cooldowns, k) && slots[k].Some?
         then [CooldownProgress(k, cooldowns[k] - dt, slots[k].value.baseCooldown)] else [])
  }

  /** Slot i triggers: its key went down, it holds an ability and it is not on cooldown. */
  predicate Fires(slots: seq<Option<Ability>>, keys: seq<int>, cooldowns: map<int, real>, pressed: set<int>, i: int)
    requires 0 <= i < |slots| == |keys|
  {
    keys[i] in pressed && slots[i].Some? && !OnCooldown(cooldowns, i)
  }

  /** The cooldowns after the trigger loop has visited slots 0..upto-1 (see TriggerRule). */
  function AfterTriggers(slots: seq<Option<Ability>>, keys: seq<int>, cooldowns: map<int, real>,
                         pressed: set<int>, upto: nat): map<int, real>
    requires upto <= |slots| == |keys|
  {
    if upto == 0 then cooldowns
    else
      var i := upto - 1;
      var before := AfterTriggers(slots, keys, cooldowns, pressed, i);
      if Fires(slots, keys, cooldowns, pressed, i) then before[i := slots[i].value.baseCooldown] else before
  }

  /** The abilities the trigger loop calls while visiting slots 0..upto-1 (see InvocationsInSlotOrder). */
  function Invocations(slots: seq<Option<Ability>>, keys: seq<int>, cooldowns: map<int, real>,
                       pressed: set<int>, upto: nat): seq<Invocation>
    requires upto <= |slots| == |keys|
  {
    if upto == 0 then []
    else
      var i := upto - 1;
      Invocations(slots, keys, cooldowns, pressed, i)
      + (if Fires(slots, keys, cooldowns, pressed, i) then [Invocation(i, slots[i].value)] else [])
  }

  /**
   * The trigger rule: after visiting slots 0..upto-1, every slot that fired
   * restarts at its ability's base cooldown, and every other entry, of a
   * visited slot or not, is as it was; no entry appears except for a slot
   * that fired.
   */
  lemma {:induction false} TriggerRule(slots: seq<Option<Ability>>, keys: seq<int>, cooldowns: map<int, real>,
                                       pressed: set<int>, upto: nat)
    requires upto <= |slots| == |keys|
    ensures var r := AfterTriggers(slots, keys, cooldowns, pressed, upto);
      && (forall i :: 0 <= i < upto && Fires(slots, keys, cooldowns, pressed, i) ==>
            i in r && r[i] == slots[i].value.baseCooldown)
      && (forall k :: k in cooldowns && !(0 <= k < upto && Fires(slots, keys, cooldowns, pressed, k)) ==>
            k in r && r[k] == cooldowns[k])
      && (forall k :: k in r ==> k in cooldowns || (0 <= k < upto && Fires(slots, keys, cooldowns, pressed, k)))
  {
    if upto > 0 {
      TriggerRule(slots, keys, cooldowns, pressed, upto - 1);
    }
  }

  /**
   * The trigger loop calls only the abilities of slots that fire, each with
   * its slot's ability, at most once per slot and in slot order
   * (FiredSlotsInvoked: and every slot that fires is called).
   */
  lemma {:induction false} InvocationsInSlotOrder(slots: seq<Option<Ability>>, keys: seq<int>,
                                                  cooldowns: map<int, real>, pressed: set<int>, upto: nat)
    requires upto <= |slots| == |keys|
    ensures var r := Invocations(slots, keys, cooldowns, pressed, upto);
      && (forall j :: 0 <= j < |r| ==>
            r[j].slot < upto && Fires(slots, keys, cooldowns, pressed, r[j].slot)
            && r[j].ability == slots[r[j].slot].value)
      && (forall j, l :: 0 <= j < l < |r| ==> r[j].slot < r[l].slot)
  {
    if upto > 0 {
      InvocationsInSlotOrder(slots, keys, cooldowns, pressed, upto - 1);
      if Fires(slots, keys, cooldowns, pressed, upto - 1) {
        var call := Invocation(upto - 1, slots[upto - 1].value);
        assert Invocations(slots, keys, cooldowns, pressed, upto)
               == Invocations(slots, keys, cooldowns, pressed, upto - 1) + [call];
      } else {
        assert Invocations(slots, keys, cooldowns, pressed, upto)
               == Invocations(slots, keys, cooldowns, pressed, upto - 1);
      }
    }
  }

  /** Every slot that fires while the trigger loop visits slots 0..upto-1 is called. */
  lemma {:induction false} FiredSlotsInvoked(slots: seq<Option<Ability>>, keys: seq<int>,
                                             cooldowns: map<int, real>, pressed: set<int>, upto: nat)
    requires upto <= |slots| == |keys|
    ensures forall i :: 0 <= i < upto && Fires(slots, keys, cooldowns, pressed, i) ==>
      Invocation(i, slots[i].value) in Invocations(slots, keys, cooldowns, pressed, upto)
  {
    if upto > 0 {
      FiredSlotsInvoked(slots, keys, cooldowns, pressed, upto - 1);
      if Fires(slots, keys, cooldowns, pressed, upto - 1) {
        assert Invocations(slots, keys, cooldowns, pressed, upto)
               == Invocations(slots, keys, cooldowns, pressed, upto - 1) + [Invocation(upto - 1, slots[upto - 1].value)];
      }
    }
  }

  /** Visiting `key` in UpdateCooldowns: the key still has its value from before the frame. */
  lemma DecrementStep(cooldowns: map<int, real>, key: int, dt: real)
    ensures var before := Decremented(cooldowns, key, dt);
      && (key in before <==> key in cooldowns)
      && (key in cooldowns ==> before[key] == cooldowns[key])
      && (OnCooldown(before, key) <==> OnCooldown(cooldowns, key))
      && Decremented(cooldowns, key + 1, dt)
         == if OnCooldown(cooldowns, key) then before[key := before[key] - dt] else before
  {
  }

  /** Visiting `key` in UpdateCooldowns: it faults there, or the first fault is further on; one more notification at most. */
  lemma FaultStep(slots: seq<Option<Ability>>, cooldowns: map<int, real>, barBound: bool, key: nat, dt: real)
    requires key < |slots|
    ensures FirstFault(slots, cooldowns, barBound, key)
            == if FaultsAt(slots, cooldowns, barBound, key) then Some(key) else FirstFault(slots, cooldowns, barBound, key + 1)
    ensures ProgressEvents(slots, cooldowns, dt, barBound, key + 1)
            == ProgressEvents(slots, cooldowns, dt, barBound, key)
               + (if barBound && OnCooldown(cooldowns, key) && slots[key].Some?
                  then [CooldownProgress(key, cooldowns[key] - dt, slots[key].value.baseCooldown)] else [])
  {
  }

  /** Visiting slot i in the trigger loop: its cooldown is still the decremented one. */
  lemma TriggerStep(slots: seq<Option<Ability>>, keys: seq<int>, cooldowns: map<int, real>,
                    pressed: set<int>, i: nat)
    requires i < |slots| == |keys|
    ensures OnCooldown(AfterTriggers(slots, keys, cooldowns, pressed, i), i) <==> OnCooldown(cooldowns, i)
  {
    TriggerRule(slots, keys, cooldowns, pressed, i);
  }

  /** What one Update does, as a value. */
  datatype FrameOutcome = FrameOutcome(
    cooldowns: map<int, real>,
    events: seq<DisplayEvent>,
    invocations: seq<Invocation>,
    faulted: bool)

  /**
   * One frame: decrement first, then trigger against the decremented
   * cooldowns; a fault in the decrement ends the frame before any trigger.
   * The frame faults exactly when some key faults, and then calls nothing.
   */
  function Frame(slots: seq<Option<Ability>>, keys: seq<int>, cooldowns: map<int, real>, barBound: bool,
                 pressed: set<int>, dt: real): (r: FrameOutcome)
    requires |slots| == |keys|
    ensures r.faulted <==> exists k :: 0 <= k < |slots| && FaultsAt(slots, cooldowns, barBound, k)
    ensures r.faulted ==> r.invocations == []
  {
    FirstFaultIsFirst(slots, cooldowns, barBound, 0);
    match FirstFault(slots, cooldowns, barBound, 0)
    case Some(f) =>
      FrameOutcome(Decremented(cooldowns, f + 1, dt), ProgressEvents(slots, cooldowns, dt, barBound, f), [], true)
    case None =>
      var decremented := Decremented(cooldowns, |slots|, dt);
      FrameOutcome(AfterTriggers(slots, keys, decremented, pressed, |slots|),
                   ProgressEvents(slots, cooldowns, dt, barBound, |slots|),
                   Invocations(slots, keys, decremented, pressed, |slots|),
                   false)
  }

  /** The notifications OnStartClient sends while re-equipping slots 0..n-1 with their own abilities. */
  function AssignEvents(slots: seq<Option<Ability>>, n: nat): seq<DisplayEvent>
    requires n <= |slots|
  {
    seq(n, j requires 0 <= j < n => SlotAssigned(slots[j], j))
  }

  /** A slot's cooldown over one frame in which it does not fire: it loses dt while positive. */
  function Step(cooldown: real, dt: real): real
  {
    if cooldown > 0.0 then cooldown - dt else cooldown
  }

  /**
   * One frame without a fault, slot by slot: a slot fires exactly when its
   * key went down, it holds an ability and its cooldown, after this frame's
   * decrement, is no longer positive; a slot that fires is called once and
   * restarts at its base cooldown; any other slot's entry just takes the
   * decrement, and a slot with no entry gets none.
   */
  lemma FrameRule(slots: seq<Option<Ability>>, keys: seq<int>, cooldowns: map<int, real>, barBound: bool,
                  pressed: set<int>, dt: real, k: nat)
    requires |slots| == |keys| && k < |slots|
    requires FirstFault(slots, cooldowns, barBound, 0).None?
    ensures var o := Frame(slots, keys, cooldowns, barBound, pressed, dt);
      var fires := keys[k] in pressed && slots[k].Some? && !(k in cooldowns && Step(cooldowns[k], dt) > 0.0);
      && !o.faulted
      && (fires ==> k in o.cooldowns && o.cooldowns[k] == slots[k].value.baseCooldown
                    && Invocation(k, slots[k].value) in o.invocations)
      && (!fires && k in cooldowns ==> k in o.cooldowns && o.cooldowns[k] == Step(cooldowns[k], dt))
      && (!fires && k !in cooldowns ==> k !in o.cooldowns)
      && (!fires ==> forall j :: 0 <= j < |o.invocations| ==> o.invocations[j].slot != k)
  {
    assert k in Decremented(cooldowns, |slots|, dt) <==> k in cooldowns;
    assert k in cooldowns ==> Decremented(cooldowns, |slots|, dt)[k] == Step(cooldowns[k], dt);
    TriggerRule(slots, keys, Decremented(cooldowns, |slots|, dt), pressed, |slots|);
    FiredSlotsInvoked(slots, keys, Decremented(cooldowns, |slots|, dt), pressed, |slots|);
    assert (keys[k] in pressed && slots[k].Some? && !(k in cooldowns && Step(cooldowns[k], dt) > 0.0))
           <==> Fires(slots, keys, Decremented(cooldowns, |slots|, dt), pressed, k);
    if !Fires(slots, keys, Decremented(cooldowns, |slots|, dt), pressed, k) {
      UnfiredSlotNotInvoked(slots, keys, Decremented(cooldowns, |slots|, dt), pressed, k);
    }
  }

  /** A slot that does not fire is never called. */
  lemma UnfiredSlotNotInvoked(slots: seq<Option<Ability>>, keys: seq<int>, cooldowns: map<int, real>,
                              pressed: set<int>, k: nat)
    requires k < |slots| == |keys| && !Fires(slots, keys, cooldowns, pressed, k)
    ensures forall j :: 0 <= j < |Invocations(slots, keys, cooldowns, pressed, |slots|)| ==>
      Invocations(slots, keys, cooldowns, pressed, |slots|)[j].slot != k
  {
    InvocationsInSlotOrder(slots, keys, cooldowns, pressed, |slots|);
  }

  /**
   * A frame calls only abilities equipped in their slot, at most once per
   * slot and in slot order; a frame that faults calls none.
   */
  lemma {:induction false} FrameCallsEquipped(slots: seq<Option<Ability>>, keys: seq<int>,
                                              cooldowns: map<int, real>, barBound: bool, pressed: set<int>, dt: real)
    requires |slots| == |keys|
    ensures var o := Frame(slots, keys, cooldowns, barBound, pressed, dt);
      && (o.faulted ==> o.invocations == [])
      && (forall j :: 0 <= j < |o.invocations| ==>
            o.invocations[j].slot < |slots| && slots[o.invocations[j].slot] == Some(o.invocations[j].ability))
      && (forall j, l :: 0 <= j < l < |o.invocations| ==> o.invocations[j].slot < o.invocations[l].slot)
  {
    if FirstFault(slots, cooldowns, barBound, 0).None? {
      InvocationsInSlotOrder(slots, keys, Decremented(cooldowns, |slots|, dt), pressed, |slots|);
      assert forall j :: 0 <= j < |Invocations(slots, keys, Decremented(cooldowns, |slots|, dt), pressed, |slots|)| ==>
        var call := Invocations(slots, keys, Decremented(cooldowns, |slots|, dt), pressed, |slots|)[j];
        call.slot < |slots| && slots[call.slot].Some? && slots[call.slot] == Some(call.ability);
    }
  }

  /** A slot whose cooldown reaches 0 or below in this frame's decrement fires in the same frame. */
  lemma SameFrameFire(slots: seq<Option<Ability>>, keys: seq<int>, cooldowns: map<int, real>, barBound: bool,
                      pressed: set<int>, dt: real, k: nat)
    requires |slots| == |keys| && k < |slots|
    requires FirstFault(slots, cooldowns, barBound, 0).None?
    requires OnCooldown(cooldowns, k) && cooldowns[k] <= dt
    requires keys[k] in pressed && slots[k].Some?
    ensures var o := Frame(slots, keys, cooldowns, barBound, pressed, dt);
      Invocation(k, slots[k].value) in o.invocations && k in o.cooldowns
      && o.cooldowns[k] == slots[k].value.baseCooldown
  {
    FrameRule(slots, keys, cooldowns, barBound, pressed, dt, k);
  }

  function Sum(dts: seq<real>): real
    decreases |dts|
  {
    if |dts| == 0 then 0.0 else dts[0] + Sum(dts[1..])
  }

  /** A slot's cooldown over frames with the given delta times in which it does not fire. */
  function Countdown(cooldown: real, dts: seq<real>): real
    decreases |dts|
  {
    if |dts| == 0 then cooldown else Countdown(Step(cooldown, dts[0]), dts[1..])
  }

  /**
   * Between triggers a cooldown never increases; it counts down by exactly
   * the elapsed time while that is less than the cooldown, and it has
   * expired once the elapsed time reaches it.
   */
  lemma {:induction false} CountdownExpires(cooldown: real, dts: seq<real>)
    decreases |dts|
    requires forall j :: 0 <= j < |dts| ==> dts[j] >= 0.0
    ensures Countdown(cooldown, dts) <= cooldown
    ensures cooldown > 0.0 && Sum(dts) < cooldown ==> Countdown(cooldown, dts) == cooldown - Sum(dts)
    ensures Sum(dts) >= cooldown ==> Countdown(cooldown, dts) <= 0.0
    ensures Sum(dts) >= 0.0
  {
    if |dts| > 0 {
      CountdownExpires(Step(cooldown, dts[0]), dts[1..]);
    }
  }

  /**
   * Equip a fireball with base cooldown 2.0 in slot 0 and hold its key:
   * it fires at t = 0 and restarts at 2.0; at t = 0.5 it is refused with
   * 1.5 left, which the bar is told; at t = 2.0 it fires again.
   */
  lemma FireballCooldownScenario(fireball: Ability, key: int)
    requires fireball.Fireball? && fireball.baseCooldown == 2.0
    ensures var slots, keys := [Some(fireball)], [key];
      var t0 := Frame(slots, keys, map[], true, {key}, 0.0);
      var t1 := Frame(slots, keys, t0.cooldowns, true, {key}, 0.5);
      var t2 := Frame(slots, keys, t1.cooldowns, true, {key}, 1.5);
      && t0.invocations == [Invocation(0, fireball)] && t0.cooldowns == map[0 := 2.0]
      && t1.invocations == [] && t1.cooldowns == map[0 := 1.5] && t1.events == [CooldownProgress(0, 1.5, 2.0)]
      && t2.invocations == [Invocation(0, fireball)] && t2.cooldowns == map[0 := 2.0]
  {
    FiresFromRest(fireball, key, map[], 0.0);
    RefusedOnCooldown(fireball, key);
    FiresFromRest(fireball, key, map[0 := 1.5], 1.5);
  }

  /** The scenario's firing frames: slot 0's cooldown is absent or runs out in this frame. */
  lemma FiresFromRest(fireball: Ability, key: int, cooldowns: map<int, real>, dt: real)
    requires fireball.Fireball? && fireball.baseCooldown == 2.0
    requires cooldowns == map[] || (cooldowns == map[0 := 1.5] && dt == 1.5)
    ensures var o := Frame([Some(fireball)], [key], cooldowns, true, {key}, dt);
      o.invocations == [Invocation(0, fireball)] && o.cooldowns == map[0 := 2.0]
  {
    var slots, keys := [Some(fireball)], [key];
    assert FirstFault(slots, cooldowns, true, 1) == None;
    assert FirstFault(slots, cooldowns, true, 0) == None;
    var d := Decremented(cooldowns, 1, dt);
    assert d == map[] || d == map[0 := 0.0];
    assert Fires(slots, keys, d, {key}, 0);
    assert AfterTriggers(slots, keys, d, {key}, 1) == d[0 := 2.0];
    assert Invocations(slots, keys, d, {key}, 1) == [Invocation(0, fireball)];
  }

  /** The scenario's refused frame: 1.5 of the cooldown is left, which the bar is told. */
  lemma RefusedOnCooldown(fireball: Ability, key: int)
    requires fireball.Fireball? && fireball.baseCooldown == 2.0
    ensures var o := Frame([Some(fireball)], [key], map[0 := 2.0], true, {key}, 0.5);
      o.invocations == [] && o.cooldowns == map[0 := 1.5] && o.events == [CooldownProgress(0, 1.5, 2.0)]
  {
    var slots, keys, cooldowns := [Some(fireball)], [key], map[0 := 2.0];
    assert FirstFault(slots, cooldowns, true, 1) == None;
    assert FirstFault(slots, cooldowns, true, 0) == None;
    var d := Decremented(cooldowns, 1, 0.5);
    assert d == map[0 := 1.5];
    assert !Fires(slots, keys, d, {key}, 0);
    assert AfterTriggers(slots, keys, d, {key}, 1) == d;
    assert Invocations(slots, keys, d, {key}, 1) == Invocations(slots, keys, d, {key}, 0) == [];
    assert ProgressEvents(slots, cooldowns, 0.5, true, 1) == [CooldownProgress(0, 1.5, 2.0)];
  }

  class AbilityHolder {
    const equippedAbilities: array<Option<Ability>>
    const abilityKeys: seq<int>
    var abilityCooldowns: map<int, real>
    var barBound: bool                   // abilityBar != null
    var spawnPoint: Pose                 // projectileSpawnPoint's transform
    const casterCollider: Option<nat>    // the collider on the holder's own game object
    var events: seq<DisplayEvent>
    var invocations: seq<Invocation>

    /** One key per slot, and cooldown entries only for slot indices. */
    ghost predicate Valid()
      reads this
    {
      && |abilityKeys| == equippedAbilities.Length
      && forall k :: k in abilityCooldowns ==> 0 <= k < equippedAbilities.Length
    }

    function Slots(): seq<Option<Ability>>
      reads equippedAbilities
    {
      equippedAbilities[..]
    }

    constructor (slots: seq<Option<Ability>>, keys: seq<int>, spawnPoint: Pose, casterCollider: Option<nat>)
      requires |slots| == |keys|
      ensures Valid() && fresh(equippedAbilities)
      ensures Slots() == slots && abilityKeys == keys && abilityCooldowns == map[]
      ensures this.spawnPoint == spawnPoint && this.casterCollider == casterCollider
      ensures !barBound && events == [] && invocations == []
    {
      equippedAbilities := new Option<Ability>[|slots|](i requires 0 <= i < |slots| => slots[i]);
      abilityKeys := keys;
      abilityCooldowns := map[];
      this.spawnPoint, this.casterCollider := spawnPoint, casterCollider;
      barBound, events, invocations := false, [], [];
    }

    /** GetProjectileSpawnPoint. */
    function SpawnPoint(): Pose
      reads this
    {
      spawnPoint
    }

    /**
     * OnStartClient: only the owning client binds the HUD ability bar, sends
     * it the slot keys and re-equips every slot with its own ability.
     */
    method OnStartClient(isOwner: bool)
      requires Valid()
      modifies this`barBound, this`events, equippedAbilities
      ensures Valid()
      ensures Slots() == old(Slots())
      ensures barBound == (old(barBound) || isOwner)
      ensures events == old(events)
        + (if isOwner then [KeysAssigned(abilityKeys)] + AssignEvents(Slots(), equippedAbilities.Length) else [])
    {
      if isOwner {
        barBound := true;
        events := events + [KeysAssigned(abilityKeys)];
        ghost var e0 := events;
        for i := 0 to equippedAbilities.Length
          invariant Valid() && barBound
          invariant Slots() == old(Slots())
          invariant events == e0 + AssignEvents(Slots(), i)
        {
          EquipAbility(equippedAbilities[i], i);
          assert AssignEvents(Slots(), i + 1) == AssignEvents(Slots(), i) + [SlotAssigned(equippedAbilities[i], i)];
        }
      }
    }

    /**
     * Update: decrement the cooldowns, then visit the slots in order and
     * trigger those that fire. `faulted` reports the null reference of
     * UpdateCooldowns, which ends the frame there.
     */
    method Update(pressed: set<int>, dt: real) returns (faulted: bool)
      requires Valid()
      modifies this`abilityCooldowns, this`events, this`invocations
      ensures Valid()
      ensures var o := Frame(Slots(), abilityKeys, old(abilityCooldowns), barBound, pressed, dt);
        && abilityCooldowns == o.cooldowns
        && events == old(events) + o.events
        && invocations == old(invocations) + o.invocations
        && faulted == o.faulted
    {
      faulted := UpdateCooldowns(dt);
      if faulted {
        return;
      }
      HandleInput(pressed);
    }

    /** The input loop of Update: visit the slots in order and trigger those that fire. */
    method HandleInput(pressed: set<int>)
      requires Valid()
      modifies this`abilityCooldowns, this`invocations
      ensures Valid()
      ensures abilityCooldowns
        == AfterTriggers(Slots(), abilityKeys, old(abilityCooldowns), pressed, equippedAbilities.Length)
      ensures invocations
        == old(invocations) + Invocations(Slots(), abilityKeys, old(abilityCooldowns), pressed, equippedAbilities.Length)
    {
      ghost var decremented := abilityCooldowns;
      for i := 0 to |abilityKeys|
        invariant abilityCooldowns == AfterTriggers(Slots(), abilityKeys, decremented, pressed, i)
        invariant invocations == old(invocations) + Invocations(Slots(), abilityKeys, decremented, pressed, i)
        invariant Valid()
      {
        TriggerStep(Slots(), abilityKeys, decremented, pressed, i);
        if abilityKeys[i] in pressed && equippedAbilities[i].Some? {
          if !OnCooldown(abilityCooldowns, i) {
            TriggerAbility(i);
          }
        }
      }
    }

    /**
     * UpdateCooldowns: every key on cooldown loses `dt` and, when the bar is
     * bound, the bar is told the new value; `faulted` when that notification
     * hits an empty slot, after that key's decrement.
     */
    method UpdateCooldowns(dt: real) returns (faulted: bool)
      requires Valid()
      modifies this`abilityCooldowns, this`events
      ensures Valid()
      ensures var f := FirstFault(Slots(), old(abilityCooldowns), barBound, 0);
        && faulted == f.Some?
        && abilityCooldowns == Decremented(old(abilityCooldowns), if f.Some? then f.value + 1 else |Slots()|, dt)
        && events == old(events)
           + ProgressEvents(Slots(), old(abilityCooldowns), dt, barBound, if f.Some? then f.value else |Slots()|)
    {
      ghost var cd0, slots := abilityCooldowns, Slots();
      var key := 0;
      while key < equippedAbilities.Length
        invariant 0 <= key <= equippedAbilities.Length == |slots| && Slots() == slots
        invariant FirstFault(slots, cd0, barBound, 0) == FirstFault(slots, cd0, barBound, key)
        invariant abilityCooldowns == Decremented(cd0, key, dt)
        invariant events == old(events) + ProgressEvents(slots, cd0, dt, barBound, key)
        invariant Valid()
      {
        FaultStep(slots, cd0, barBound, key, dt);
        faulted := DecrementKey(key, dt, slots, cd0, old(events));
        if faulted {
          assert FirstFault(slots, cd0, barBound, 0) == Some(key);
          return;
        }
        key := key + 1;
      }
      assert FirstFault(slots, cd0, barBound, 0) == None;
      return false;
    }

    /**
     * One iteration of UpdateCooldowns, at `key`: the keys before it have
     * been decremented and notified, and now `key` is too, unless it faults.
     */
    method DecrementKey(key: nat, dt: real, ghost slots: seq<Option<Ability>>, ghost cd0: map<int, real>,
                        ghost events0: seq<DisplayEvent>)
      returns (faulted: bool)
      requires Valid() && key < equippedAbilities.Length && Slots() == slots
      requires abilityCooldowns == Decremented(cd0, key, dt)
      requires events == events0 + ProgressEvents(slots, cd0, dt, barBound, key)
      modifies this`abilityCooldowns, this`events
      ensures Valid()
      ensures faulted == FaultsAt(slots, cd0, barBound, key)
      ensures abilityCooldowns == Decremented(cd0, key + 1, dt)
      ensures !faulted ==> events == events0 + ProgressEvents(slots, cd0, dt, barBound, key + 1)
      ensures faulted ==> events == old(events)
    {
      DecrementStep(cd0, key, dt);
      FaultStep(slots, cd0, barBound, key, dt);
      faulted := false;
      if OnCooldown(abilityCooldowns, key) {
        abilityCooldowns := abilityCooldowns[key := abilityCooldowns[key] - dt];
        if barBound {
          if equippedAbilities[key].None? {
            return true;   // null reference: the empty slot has no base cooldown
          }
          events := events + [CooldownProgress(key, abilityCooldowns[key], equippedAbilities[key].value.baseCooldown)];
        }
      }
    }

    /** TriggerAbility: call the slot's ability, then start the slot's cooldown at its base cooldown. */
    method TriggerAbility(slotIndex: nat)
      requires Valid() && slotIndex < equippedAbilities.Length && equippedAbilities[slotIndex].Some?
      modifies this`abilityCooldowns, this`invocations
      ensures Valid()
      ensures invocations == old(invocations) + [Invocation(slotIndex, equippedAbilities[slotIndex].value)]
      ensures abilityCooldowns == old(abilityCooldowns)[slotIndex := equippedAbilities[slotIndex].value.baseCooldown]
    {
      invocations := invocations + [Invocation(slotIndex, equippedAbilities[slotIndex].value)];
      abilityCooldowns := abilityCooldowns[slotIndex := equippedAbilities[slotIndex].value.baseCooldown];
    }

    /** EquipAbility: replace the slot's ability; the slot's cooldown entry is kept. */
    method EquipAbility(ability: Option<Ability>, slotIndex: int)
      requires Valid()
      modifies equippedAbilities, this`events
      ensures Valid()
      ensures !(0 <= slotIndex < equippedAbilities.Length) ==>
        Slots() == old(Slots()) && events == old(events) + [InvalidSlotIndex]
      ensures 0 <= slotIndex < equippedAbilities.Length ==>
        && Slots() == old(Slots())[slotIndex := ability]
        && events == old(events) + (if barBound then [SlotAssigned(ability, slotIndex)] else [])
    {
      if slotIndex < 0 || slotIndex >= equippedAbilities.Length {
        events := events + [InvalidSlotIndex];
        return;
      }
      equippedAbilities[slotIndex] := ability;
      if barBound {
        events := events + [SlotAssigned(ability, slotIndex)];
      }
    }

    /** UnequipAbility: empty the slot and remove its cooldown entry altogether. */
    method UnequipAbility(slotIndex: int)
      requires Valid()
      modifies equippedAbilities, this`abilityCooldowns, this`events
      ensures Valid()
      ensures !(0 <= slotIndex < equippedAbilities.Length) ==>
        && Slots() == old(Slots()) && abilityCooldowns == old(abilityCooldowns)
        && events == old(events) + [InvalidSlotIndex]
      ensures 0 <= slotIndex < equippedAbilities.Length ==>
        && Slots() == old(Slots())[slotIndex := None]
        && abilityCooldowns == old(abilityCooldowns) - {slotIndex}
        && events == old(events) + (if barBound then [SlotAssigned(None, slotIndex)] else [])
    {
      if slotIndex < 0 || slotIndex >= equippedAbilities.Length {
        events := events + [InvalidSlotIndex];
        return;
      }
      equippedAbilities[slotIndex] := None;
      abilityCooldowns := abilityCooldowns - {slotIndex};
      if barBound {
        events := events + [SlotAssigned(None, slotIndex)];
      }
    }
  }
}
