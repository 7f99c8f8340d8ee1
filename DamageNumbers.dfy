/**
 * The damage-number pool (DMGNumbersManager): a FIFO queue of inactive
 * floating damage numbers, pre-warmed at start, drawn from on every damage
 * event and refilled when a number's animation ends.
 *
 * Damage numbers are kept in an arena: `entries[h]` is the entry with handle
 * `h`, and the queue holds handles. Every entry the manager ever created stays
 * in the arena, so `|entries|` counts the entries created so far.
 */
module DamageNumbers {
  import opened Scene

  /** What a spawned damage number shows: where it is and the rounded damage. */
  datatype Display = Display(position: Vec3, value: int)

  /** One pooled damage number: its active flag and what it last showed. */
  datatype DamageNumber = DamageNumber(active: bool, shown: Option<Display>)

  const Created := DamageNumber(false, None)

  /** The abstract state of the manager: the queue of handles (front first) and the arena. */
  datatype PoolState = PoolState(queue: seq<nat>, entries: seq<DamageNumber>)
  {
    /** Every queued handle names an entry of the arena. */
    ghost predicate WellFormed()
    {
      forall i :: 0 <= i < |queue| ==> queue[i] < |entries|
    }
  }

  /** CreateNewDamageNumber: a new inactive entry, appended to the back of the queue. */
  function CreateEntry(s: PoolState): (r: (PoolState, nat))
    ensures r.1 == |s.entries|
    ensures r.0.entries == s.entries + [Created]
    ensures r.0.queue == s.queue + [r.1]
    ensures s.WellFormed() ==> r.0.WellFormed()
  {
    var h := |s.entries|;
    (PoolState(s.queue + [h], s.entries + [Created]), h)
  }

  /** The pre-warm loop of Start: `count` calls of CreateNewDamageNumber. */
  function Prewarm(s: PoolState, count: int): (r: PoolState)
    ensures |r.entries| == |s.entries| + (if count < 0 then 0 else count)
    decreases count
  {
    if count <= 0 then s else CreateEntry(Prewarm(s, count - 1)).0
  }

  /**
   * SpawnDamageNumber: reuse the front entry when the queue is not empty,
   * otherwise create one -- which CreateNewDamageNumber also enqueues, so the
   * new entry stays in the queue while it is active. The chosen entry becomes
   * active, is placed at `position` and shows RoundToInt(damage).
   */
  function Spawn(s: PoolState, position: Vec3, damage: real): (r: (PoolState, nat))
    requires s.WellFormed()
    ensures r.0.WellFormed()
    ensures r.1 < |r.0.entries|
    ensures r.0.entries[r.1] == DamageNumber(true, Some(Display(position, RoundToInt(damage))))
    ensures |r.0.entries| >= |s.entries|
    ensures forall g :: 0 <= g < |s.entries| && g != r.1 ==> r.0.entries[g] == s.entries[g]
    // first in, first out: a non-empty queue gives up its front entry and nothing is created
    ensures |s.queue| > 0 ==>
      r.1 == s.queue[0] && r.0.queue == s.queue[1..] && |r.0.entries| == |s.entries|
    // an empty queue: one entry is created and stays queued while it is active
    ensures |s.queue| == 0 ==>
      r.1 == |s.entries| && r.0.queue == [r.1] && |r.0.entries| == |s.entries| + 1
  {
    var (t, h) := if |s.queue| > 0 then (PoolState(s.queue[1..], s.entries), s.queue[0])
                  else CreateEntry(s);
    (PoolState(t.queue, t.entries[h := DamageNumber(true, Some(Display(position, RoundToInt(damage))))]), h)
  }

  /** ReturnToPool: deactivate the entry and append it to the back, with no guard against a second return. */
  function Return(s: PoolState, h: nat): (r: PoolState)
    requires s.WellFormed() && h < |s.entries|
    ensures r.WellFormed()
    ensures r.queue == s.queue + [h]
    ensures |r.entries| == |s.entries| && !r.entries[h].active
    ensures forall g :: 0 <= g < |s.entries| && g != h ==> r.entries[g] == s.entries[g]
  {
    PoolState(s.queue + [h], s.entries[h := s.entries[h].(active := false)])
  }

  class DMGNumbersManager {
    const initialPoolSize: int
    var queue: seq<nat>
    var entries: seq<DamageNumber>

    function State(): PoolState
      reads this
    {
      PoolState(queue, entries)
    }

    ghost predicate Valid()
      reads this
    {
      State().WellFormed()
    }

    constructor (initialPoolSize: int)
      ensures Valid()
      ensures this.initialPoolSize == initialPoolSize && State() == PoolState([], [])
    {
      this.initialPoolSize := initialPoolSize;
      queue, entries := [], [];
    }

    /** Start: pre-populate the pool with `initialPoolSize` entries. */
    method Start()
      requires Valid()
      modifies this
      ensures Valid()
      ensures State() == Prewarm(old(State()), initialPoolSize)
    {
      var i := 0;
      while i < initialPoolSize
        invariant i <= initialPoolSize || i == 0
        invariant Valid()
        invariant State() == Prewarm(old(State()), i)
      {
        var _ := CreateNewDamageNumber();
        i := i + 1;
      }
    }

    method CreateNewDamageNumber() returns (h: nat)
      requires Valid()
      modifies this
      ensures Valid()
      ensures (State(), h) == CreateEntry(old(State()))
    {
      h := |entries|;
      entries := entries + [Created];
      queue := queue + [h];
    }

    /** SpawnDamageNumber: hands out an entry and returns its handle. */
    method SpawnDamageNumber(position: Vec3, damage: real) returns (h: nat)
      requires Valid()
      modifies this
      ensures Valid()
      ensures (State(), h) == Spawn(old(State()), position, damage)
    {
      var damageInt := RoundToInt(damage);
      if |queue| > 0 {
        h := queue[0];
        queue := queue[1..];
      } else {
        h := CreateNewDamageNumber();
      }
      entries := entries[h := DamageNumber(true, Some(Display(position, damageInt)))];
    }

    /** ReturnToPool, called by a damage number when its float-and-fade animation ends. */
    method ReturnToPool(h: nat)
      requires Valid() && h < |entries|
      modifies this
      ensures Valid()
      ensures State() == Return(old(State()), h)
    {
      entries := entries[h := entries[h].(active := false)];
      queue := queue + [h];
    }
  }

  /** After Start on an empty manager the queue holds handles 0..n-1, in order, all inactive. */
  lemma {:induction false} PrewarmFillsQueue(n: nat)
    ensures Prewarm(PoolState([], []), n).queue == seq(n, i => i)
    ensures Prewarm(PoolState([], []), n).entries == seq(n, _ => Created)
  {
    if n > 0 {
      PrewarmFillsQueue(n - 1);
      var p := Prewarm(PoolState([], []), n - 1);
      assert p.queue + [n - 1] == seq(n, i => i);
      assert p.entries + [Created] == seq(n, _ => Created);
    }
  }

  /**
   * The consequence of that quirk: two spawns from an empty queue hand out the
   * same entry, the second time while it is still active from the first.
   */
  lemma {:induction false} EmptyPoolHandsOutActiveEntryTwice(s: PoolState, p1: Vec3, d1: real, p2: Vec3, d2: real)
    requires s.WellFormed() && s.queue == []
    ensures var (t, h1) := Spawn(s, p1, d1);
      var (u, h2) := Spawn(t, p2, d2);
      h1 == h2 && t.entries[h1].active && u.queue == [] && |u.entries| == |s.entries| + 1
  {
    var (t, h1) := Spawn(s, p1, d1);
    assert t.queue == [h1];
  }
}
