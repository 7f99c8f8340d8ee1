/**
 * The procedural crystal mesh (IceCrystalGenerator): a pyramid over a regular
 * polygon of `n` sides. Vertex 0 is the centre of the base, vertices 1..n the
 * ring, vertex n+1 the tip. The triangle list holds n base triangles (centre,
 * ring vertex, next ring vertex) followed by n side triangles (ring vertex,
 * tip, next ring vertex).
 *
 * The ring coordinates (cos, sin of i/n of a full turn) are a parameter:
 * `ring[i]` is the point of the unit circle for ring vertex i+1.
 */
module IceCrystals {
  import opened Scene

  /** The ring vertex after ring vertex i+1, wrapping back to vertex 1. */
  function Next(n: int, i: int): int
    requires n > 0
  {
    (i + 1) % n + 1
  }

  /** For a ring vertex j+1, the next one is j+2, except that the last one wraps to 1. */
  lemma NextOnRing(n: int, j: int)
    requires 0 <= j < n
    ensures Next(n, j) == if j == n - 1 then 1 else j + 2
  {
    if j < n - 1 {
      assert 0 <= j + 1 < n;
    }
  }

  /** The base triangles 0..i-1, three indices each. */
  function BaseFan(n: int, i: nat): (s: seq<int>)
    requires n > 0
    ensures |s| == 3 * i
  {
    if i == 0 then [] else BaseFan(n, i - 1) + [0, i, Next(n, i - 1)]
  }

  /** The side triangles 0..i-1, three indices each. */
  function SideFan(n: int, i: nat): (s: seq<int>)
    requires n > 0
    ensures |s| == 3 * i
  {
    if i == 0 then [] else SideFan(n, i - 1) + [i, n + 1, Next(n, i - 1)]
  }

  /** The whole triangle list: all base triangles, then all side triangles. */
  function Triangles(n: nat): seq<int>
  {
    if n == 0 then [] else BaseFan(n, n) + SideFan(n, n)
  }

  /** The vertex list: centre, the ring scaled by the radius at height 0, the tip. */
  function Vertices(n: nat, radius: real, height: real, ring: seq<Vec2>): seq<Vec3>
    requires |ring| == n
  {
    [Zero] + seq(n, i requires 0 <= i < n => Vec3(ring[i].x * radius, 0.0, ring[i].z * radius))
    + [Vec3(0.0, height, 0.0)]
  }

  /** The vertex loop of Generate: a fresh array of n+2 vertices. */
  method BuildVertices(n: nat, radius: real, height: real, ring: seq<Vec2>) returns (v: array<Vec3>)
    requires |ring| == n
    ensures fresh(v) && v.Length == n + 2
    ensures v[..] == Vertices(n, radius, height, ring)
  {
    v := new Vec3[n + 2](_ => Zero);
    v[0] := Zero;
    for i := 0 to n
      invariant v[0] == Zero
      invariant forall j :: 0 <= j < i ==> v[j + 1] == Vec3(ring[j].x * radius, 0.0, ring[j].z * radius)
    {
      v[i + 1] := Vec3(ring[i].x * radius, 0.0, ring[i].z * radius);
    }
    v[n + 1] := Vec3(0.0, height, 0.0);
    forall k | 0 <= k < n + 2
      ensures v[k] == Vertices(n, radius, height, ring)[k]
    {
      VertexAt(n, radius, height, ring, k);
    }
  }

  /** Vertex k of the list: the centre, a scaled ring point, or the tip. */
  lemma VertexAt(n: nat, radius: real, height: real, ring: seq<Vec2>, k: nat)
    requires |ring| == n && k < n + 2
    ensures |Vertices(n, radius, height, ring)| == n + 2
    ensures Vertices(n, radius, height, ring)[k]
            == if k == 0 then Zero
               else if k <= n then Vec3(ring[k - 1].x * radius, 0.0, ring[k - 1].z * radius)
               else Vec3(0.0, height, 0.0)
  {
  }

  /** The triangle loop of Generate: a fresh array of 6n indices, iteration i writing both triangles i. */
  method BuildTriangles(n: nat) returns (t: array<int>)
    ensures fresh(t) && t.Length == 6 * n
    ensures t[..] == Triangles(n)
  {
    t := new int[6 * n](_ => 0);
    if n == 0 {
      return;
    }
    for i := 0 to n
      invariant forall k :: 0 <= k < 3 * i ==> t[k] == BaseFan(n, i)[k]
      invariant forall k :: 0 <= k < 3 * i ==> t[3 * n + k] == SideFan(n, i)[k]
    {
      // base
      WriteTriangle(t, i * 3, 0, i + 1, (i + 1) % n + 1);
      // sides
      WriteTriangle(t, n * 3 + i * 3, i + 1, n + 1, (i + 1) % n + 1);
      assert BaseFan(n, i + 1) == BaseFan(n, i) + [0, i + 1, Next(n, i)];
      assert SideFan(n, i + 1) == SideFan(n, i) + [i + 1, n + 1, Next(n, i)];
    }
    forall k | 0 <= k < 6 * n
      ensures t[k] == Triangles(n)[k]
    {
      if k >= 3 * n {
        assert t[3 * n + (k - 3 * n)] == SideFan(n, n)[k - 3 * n];
      }
    }
  }

  /** Writes one triangle's three indices into slots p..p+2. */
  method WriteTriangle(t: array<int>, p: nat, a: int, b: int, c: int)
    requires p + 3 <= t.Length
    modifies t
    ensures t[p] == a && t[p + 1] == b && t[p + 2] == c
    ensures forall k :: 0 <= k < t.Length && (k < p || p + 3 <= k) ==> t[k] == old(t[k])
  {
    t[p] := a;
    t[p + 1] := b;
    t[p + 2] := c;
  }

  /** Base triangle j of the first i is (centre, ring vertex j+1, the next ring vertex). */
  lemma {:induction false} BaseTriangle(n: int, i: nat, j: nat)
    requires n > 0 && j < i
    ensures BaseFan(n, i)[3 * j] == 0
    ensures BaseFan(n, i)[3 * j + 1] == j + 1
    ensures BaseFan(n, i)[3 * j + 2] == Next(n, j)
  {
    if j < i - 1 {
      BaseTriangle(n, i - 1, j);
    }
  }

  /** Side triangle j of the first i is (ring vertex j+1, the tip, the next ring vertex). */
  lemma {:induction false} SideTriangle(n: int, i: nat, j: nat)
    requires n > 0 && j < i
    ensures SideFan(n, i)[3 * j] == j + 1
    ensures SideFan(n, i)[3 * j + 1] == n + 1
    ensures SideFan(n, i)[3 * j + 2] == Next(n, j)
  {
    if j < i - 1 {
      SideTriangle(n, i - 1, j);
    }
  }

  /**
   * The triangle pattern by slot: base triangle i in slots 3i..3i+2, side
   * triangle i in slots 3n+3i..3n+3i+2.
   */
  lemma TriangleSlots(n: nat, i: nat)
    requires i < n
    ensures |Triangles(n)| == 6 * n
    ensures Triangles(n)[3 * i .. 3 * i + 3] == [0, i + 1, (i + 1) % n + 1]
    ensures Triangles(n)[3 * n + 3 * i .. 3 * n + 3 * i + 3] == [i + 1, n + 1, (i + 1) % n + 1]
  {
    BaseTriangle(n, n, i);
    SideTriangle(n, n, i);
  }

  lemma {:induction false} BaseFanInRange(n: int, i: nat)
    requires 0 < n && i <= n
    ensures forall k :: 0 <= k < |BaseFan(n, i)| ==> 0 <= BaseFan(n, i)[k] <= n + 1
  {
    if i > 0 {
      BaseFanInRange(n, i - 1);
    }
  }

  lemma {:induction false} SideFanInRange(n: int, i: nat)
    requires 0 < n && i <= n
    ensures forall k :: 0 <= k < |SideFan(n, i)| ==> 0 <= SideFan(n, i)[k] <= n + 1
  {
    if i > 0 {
      SideFanInRange(n, i - 1);
    }
  }

  /** Every triangle index names a vertex: it lies in [0, n+1], and the vertex list has n+2 entries. */
  lemma IndicesNameVertices(n: nat, radius: real, height: real, ring: seq<Vec2>)
    requires |ring| == n
    ensures forall k :: 0 <= k < |Triangles(n)| ==>
      0 <= Triangles(n)[k] < |Vertices(n, radius, height, ring)|
  {
    if n > 0 {
      BaseFanInRange(n, n);
      SideFanInRange(n, n);
    }
  }

  /** With at least two sides no triangle repeats a vertex (one side gives degenerate triangles). */
  lemma TrianglesAreProper(n: nat, j: nat)
    requires 2 <= n && j < 2 * n
    ensures var t := Triangles(n);
      t[3 * j] != t[3 * j + 1] && t[3 * j + 1] != t[3 * j + 2] && t[3 * j] != t[3 * j + 2]
  {
    var t := Triangles(n);
    if j < n {
      BaseTriangle(n, n, j);
      NextOnRing(n, j);
    } else {
      SideTriangle(n, n, j - n);
      NextOnRing(n, j - n);
      assert t[3 * j .. 3 * j + 3] == SideFan(n, n)[3 * (j - n) .. 3 * (j - n) + 3];
    }
  }

  lemma BaseFanOfThree()
    ensures BaseFan(3, 3) == [0, 1, 2, 0, 2, 3, 0, 3, 1]
  {
    assert BaseFan(3, 1) == [0, 1, 2];
    assert BaseFan(3, 2) == [0, 1, 2, 0, 2, 3];
  }

  lemma SideFanOfThree()
    ensures SideFan(3, 3) == [1, 4, 2, 2, 4, 3, 3, 4, 1]
  {
    assert SideFan(3, 1) == [1, 4, 2];
    assert SideFan(3, 2) == [1, 4, 2, 2, 4, 3];
  }

  /** Three sides: 5 vertices and 18 indices, the last base and side triangles closing the ring at vertex 1. */
  lemma ThreeSidedCrystal(radius: real, height: real, ring: seq<Vec2>)
    requires |ring| == 3
    ensures |Vertices(3, radius, height, ring)| == 5
    ensures Triangles(3) == [0, 1, 2, 0, 2, 3, 0, 3, 1, 1, 4, 2, 2, 4, 3, 3, 4, 1]
  {
    BaseFanOfThree();
    SideFanOfThree();
  }

  /** Ring vertices lie on the base circle: at height 0 and at distance `radius` from the centre. */
  lemma RingOnBaseCircle(n: nat, radius: real, height: real, ring: seq<Vec2>, i: nat)
    requires |ring| == n && i < n
    requires ring[i].x * ring[i].x + ring[i].z * ring[i].z == 1.0
    ensures Vertices(n, radius, height, ring)[i + 1].y == 0.0
    ensures Vertices(n, radius, height, ring)[i + 1].SqrMagnitude() == radius * radius
  {
    var c, s := ring[i].x, ring[i].z;
    var p := Vertices(n, radius, height, ring)[i + 1];
    assert p == Vec3(c * radius, 0.0, s * radius);
    calc {
      p.SqrMagnitude();
      (c * radius) * (c * radius) + 0.0 * 0.0 + (s * radius) * (s * radius);
      (c * c + s * s) * (radius * radius);
      radius * radius;
    }
  }

  /** The crystal game object Generate returns: its transform and its mesh. */
  class Crystal {
    var position: Vec3
    var rotation: Rotation
    var scale: real
    const vertices: array<Vec3>
    const triangles: array<int>

    constructor (position: Vec3, rotation: Rotation, vertices: array<Vec3>, triangles: array<int>)
      ensures this.position == position && this.rotation == rotation && scale == 1.0
      ensures this.vertices == vertices && this.triangles == triangles
    {
      this.position, this.rotation, scale := position, rotation, 1.0;
      this.vertices, this.triangles := vertices, triangles;
    }
  }

  class IceCrystalGenerator {
    const numberOfSides: int
    const baseRadius: real
    const height: real

    constructor (numberOfSides: int, baseRadius: real, height: real)
      ensures this.numberOfSides == numberOfSides && this.baseRadius == baseRadius && this.height == height
    {
      this.numberOfSides, this.baseRadius, this.height := numberOfSides, baseRadius, height;
    }

    /**
     * Generate: a fresh crystal at the given position and rotation with the
     * generator's mesh. A negative side count makes the array allocations
     * throw, which is reported as a null result.
     */
    method Generate(position: Vec3, rotation: Rotation, ring: seq<Vec2>) returns (crystal: Crystal?)
      requires numberOfSides >= 0 ==> |ring| == numberOfSides
      ensures crystal == null <==> numberOfSides < 0
      ensures crystal != null ==>
        && fresh(crystal) && fresh(crystal.vertices) && fresh(crystal.triangles)
        && crystal.position == position && crystal.rotation == rotation && crystal.scale == 1.0
        && crystal.vertices[..] == Vertices(numberOfSides, baseRadius, height, ring)
        && crystal.triangles[..] == Triangles(numberOfSides)
    {
      if numberOfSides < 0 {
        return null;
      }
      var vertices := BuildVertices(numberOfSides, baseRadius, height, ring);
      var triangles := BuildTriangles(numberOfSides);
      crystal := new Crystal(position, rotation, vertices, triangles);
    }
  }
}
