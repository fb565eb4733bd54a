/** The UV sphere of cpp/10/shadows/include/Sphere.h. `Sphere::init` walks
    latitude rows 0 .. latitudeBands and longitude columns 0 ..
    longitudeBands (both inclusive), adding one vertex per pair, then emits
    two triangles for every quad between neighbouring rows and columns.

    The vertex position is `cos(phi) sin(theta), cos(theta),
    sin(phi) sin(theta)` for theta = lat * pi / latitudeBands and
    phi = long * 2 pi / longitudeBands; the trigonometry is not modelled, so
    a vertex records the (lat, long) pair its position is computed from. The
    geometry class `Sphere.h` talks to (`addVertex`, `addTexture`,
    `addIndex`) is not part of this model: here it simply appends. */
module Spheres {
  import opened Common

  /** The band counts `Sphere::init` fixes. */
  const LatitudeBands: nat := 30
  const LongitudeBands: nat := 30

  /** One sphere vertex: the grid point its position is computed from, and
      its texture coordinate. */
  datatype SphereVertex = SphereVertex(lat: nat, long: nat, u: real, v: real)

  /** The vertex and index lists `init` builds. */
  datatype SphereMesh = SphereMesh(vertices: seq<SphereVertex>, indices: seq<nat>)

  /** u = 1 - long / longitudeBands, and likewise v for latitude. */
  function BandCoord(i: nat, bands: nat): real
    requires bands > 0
  {
    1.0 - (i as real) / (bands as real)
  }

  /** Every grid point on or inside the last band gives a coordinate in
      [0, 1]; the last one (i == bands) gives exactly 0. */
  lemma BandCoordRange(i: nat, bands: nat)
    requires 0 < bands && i <= bands
    ensures 0.0 <= BandCoord(i, bands) <= 1.0
    ensures BandCoord(i, bands) == 0.0 <==> i == bands
  {
    assert (i as real) <= (bands as real);
    assert (i as real) / (bands as real) == 1.0 <==> i == bands;
  }

  // ---------------------------------------------------------------------
  // Vertices

  /** The vertices of latitude row `lat`: longitude 0 .. longBands. */
  function VertexRow(lat: nat, latBands: nat, longBands: nat): (r: seq<SphereVertex>)
    requires latBands > 0 && longBands > 0
    ensures |r| == longBands + 1
    ensures forall j | 0 <= j < |r| :: r[j].lat == lat && r[j].long == j
  {
    seq(longBands + 1, j requires 0 <= j <= longBands =>
      SphereVertex(lat, j, BandCoord(j, longBands), BandCoord(lat, latBands)))
  }

  /** The vertices of the first n latitude rows, in loop order. */
  function SphereVertices(latBands: nat, longBands: nat, n: nat): (r: seq<SphereVertex>)
    requires latBands > 0 && longBands > 0
    ensures |r| == n * (longBands + 1)
    decreases n
  {
    if n == 0 then []
    else
      var prefix := SphereVertices(latBands, longBands, n - 1);
      assert |prefix| + (longBands + 1) == n * (longBands + 1) by {
        assert n * (longBands + 1) == (n - 1) * (longBands + 1) + (longBands + 1);
      }
      prefix + VertexRow(n - 1, latBands, longBands)
  }

  /** Vertex lat * (longBands + 1) + long is the one computed from grid
      point (lat, long). */
  lemma {:induction false} SphereVertexAt(latBands: nat, longBands: nat, n: nat, lat: nat, long: nat)
    requires latBands > 0 && longBands > 0 && lat < n && long <= longBands
    ensures lat * (longBands + 1) + long < n * (longBands + 1)
    ensures SphereVertices(latBands, longBands, n)[lat * (longBands + 1) + long]
            == SphereVertex(lat, long, BandCoord(long, longBands), BandCoord(lat, latBands))
    decreases n
  {
    var w := longBands + 1;
    var prefix := SphereVertices(latBands, longBands, n - 1);
    assert SphereVertices(latBands, longBands, n) == prefix + VertexRow(n - 1, latBands, longBands);
    assert |prefix| == (n - 1) * w;
    if lat < n - 1 {
      SphereVertexAt(latBands, longBands, n - 1, lat, long);
      RowOffsetBelow(lat, n - 1, w, long);
    } else {
      assert lat * w + long == |prefix| + long;
    }
    RowOffsetBelow(lat, n, w, long);
  }

  /** lat < n rows of width w put column `long` < w before n * w. */
  lemma RowOffsetBelow(lat: nat, n: nat, w: nat, long: nat)
    requires lat < n && long < w
    ensures lat * w + long < n * w
  {
    assert (lat + 1) * w <= n * w by {
      var d: nat := n - (lat + 1);
      assert n * w == (lat + 1) * w + d * w;
    }
    assert (lat + 1) * w == lat * w + w;
  }

  /** Every sphere vertex has both texture coordinates in [0, 1]. */
  lemma {:induction false} SphereTexCoordsInRange(latBands: nat, longBands: nat, n: nat)
    requires latBands > 0 && longBands > 0 && n <= latBands + 1
    ensures forall k | 0 <= k < |SphereVertices(latBands, longBands, n)| ::
      var vert := SphereVertices(latBands, longBands, n)[k];
      0.0 <= vert.u <= 1.0 && 0.0 <= vert.v <= 1.0
    decreases n
  {
    if n > 0 {
      SphereTexCoordsInRange(latBands, longBands, n - 1);
      var prefix := SphereVertices(latBands, longBands, n - 1);
      var row := VertexRow(n - 1, latBands, longBands);
      assert SphereVertices(latBands, longBands, n) == prefix + row;
      BandCoordRange(n - 1, latBands);
      forall j | 0 <= j < |row|
        ensures 0.0 <= row[j].u <= 1.0 && 0.0 <= row[j].v <= 1.0
      {
        BandCoordRange(j, longBands);
      }
    }
  }

  // ---------------------------------------------------------------------
  // Indices

  /** lat * w, the number of vertices in the lat rows of width w before row
      lat, accumulated row by row. */
  function RowOffset(lat: nat, w: nat): nat
    decreases lat
  {
    if lat == 0 then 0 else RowOffset(lat - 1, w) + w
  }

  lemma {:induction false} RowOffsetIsProduct(lat: nat, w: nat)
    ensures RowOffset(lat, w) == lat * w
    decreases lat
  {
    if lat > 0 {
      RowOffsetIsProduct(lat - 1, w);
      assert lat * w == (lat - 1) * w + w;
    }
  }

  /** The six indices of the quad at (lat, long), in `unsigned int`
      arithmetic: first = lat * (longBands + 1) + long,
      second = first + longBands + 1, triangles (first, second, first + 1)
      and (second, second + 1, first + 1). */
  function QuadIndices(lat: nat, long: nat, longBands: nat): (r: seq<nat>)
    ensures |r| == 6
  {
    var first := ToU32(RowOffset(lat, longBands + 1) + long);
    var second := ToU32(first + longBands + 1);
    [first, second, ToU32(first + 1), second, ToU32(second + 1), ToU32(first + 1)]
  }

  /** The indices of latitude row `lat`: quads for longitude 0 .. c - 1. */
  function IndexRow(lat: nat, longBands: nat, c: nat): (r: seq<nat>)
    ensures |r| == 6 * c
    decreases c
  {
    if c == 0 then [] else IndexRow(lat, longBands, c - 1) + QuadIndices(lat, c - 1, longBands)
  }

  /** Where latitude row n starts in the index list: 6 longBands indices
      per earlier row. */
  function RowStart(n: nat, longBands: nat): nat
    decreases n
  {
    if n == 0 then 0 else RowStart(n - 1, longBands) + 6 * longBands
  }

  lemma {:induction false} RowStartIsProduct(n: nat, longBands: nat)
    ensures RowStart(n, longBands) == 6 * n * longBands
    decreases n
  {
    if n > 0 {
      RowStartIsProduct(n - 1, longBands);
      assert 6 * n * longBands == 6 * (n - 1) * longBands + 6 * longBands;
    }
  }

  /** The indices of the first n latitude rows, in loop order. */
  function SphereIndices(longBands: nat, n: nat): (r: seq<nat>)
    ensures |r| == RowStart(n, longBands)
    decreases n
  {
    if n == 0 then [] else SphereIndices(longBands, n - 1) + IndexRow(n - 1, longBands, longBands)
  }

  /** Without wrap-around the quad's indices are the ones the comment in
      `init` describes, and all of them name a vertex of a sphere with
      `latBands` rows of quads. */
  lemma QuadIndicesValues(lat: nat, long: nat, latBands: nat, longBands: nat)
    requires lat < latBands && long < longBands
    requires (latBands + 1) * (longBands + 1) < U32_MODULUS
    ensures var first := lat * (longBands + 1) + long;
      var second := first + longBands + 1;
      QuadIndices(lat, long, longBands) == [first, second, first + 1, second, second + 1, first + 1]
    ensures forall t | 0 <= t < 6 :: QuadIndices(lat, long, longBands)[t] < (latBands + 1) * (longBands + 1)
  {
    var w := longBands + 1;
    var first := lat * w + long;
    RowOffsetIsProduct(lat, w);
    QuadBound(lat, long, latBands, w);
    assert ToU32(first) == first;
    assert ToU32(first + 1) == first + 1;
    assert ToU32(first + w) == first + w;
    assert ToU32(first + w + 1) == first + w + 1;
  }

  /** The largest index of quad (lat, long), second + 1, is below the
      vertex count. */
  lemma QuadBound(lat: nat, long: nat, latBands: nat, w: nat)
    requires lat < latBands && long + 1 < w
    ensures lat * w + long + w + 1 < (latBands + 1) * w
  {
    assert (lat + 1) * w <= latBands * w by {
      var d: nat := latBands - (lat + 1);
      assert latBands * w == (lat + 1) * w + d * w;
    }
    assert (lat + 1) * w == lat * w + w;
    assert (latBands + 1) * w == latBands * w + w;
  }

  /** Every index in a prefix of rows below latBands names a vertex. */
  lemma {:induction false} IndexRowInRange(lat: nat, latBands: nat, longBands: nat, c: nat)
    requires lat < latBands && c <= longBands
    requires (latBands + 1) * (longBands + 1) < U32_MODULUS
    ensures forall t | 0 <= t < |IndexRow(lat, longBands, c)| ::
      IndexRow(lat, longBands, c)[t] < (latBands + 1) * (longBands + 1)
    decreases c
  {
    if c > 0 {
      IndexRowInRange(lat, latBands, longBands, c - 1);
      QuadIndicesValues(lat, c - 1, latBands, longBands);
    }
  }

  /** Every index of the first n latitude rows names a vertex of the full
      sphere. */
  lemma {:induction false} SphereIndicesInRange(latBands: nat, longBands: nat, n: nat)
    requires n <= latBands && (latBands + 1) * (longBands + 1) < U32_MODULUS
    ensures forall t | 0 <= t < |SphereIndices(longBands, n)| ::
      SphereIndices(longBands, n)[t] < (latBands + 1) * (longBands + 1)
    decreases n
  {
    if n > 0 {
      SphereIndicesInRange(latBands, longBands, n - 1);
      IndexRowInRange(n - 1, latBands, longBands, longBands);
    }
  }

  /** Index 6 (lat * longBands + long) + t is entry t of the quad at
      (lat, long): the quads come row by row, six indices each. */
  lemma {:induction false} IndexRowAt(lat: nat, longBands: nat, c: nat, long: nat, t: nat)
    requires long < c && t < 6
    ensures 6 * long + t < |IndexRow(lat, longBands, c)|
    ensures IndexRow(lat, longBands, c)[6 * long + t] == QuadIndices(lat, long, longBands)[t]
    decreases c
  {
    var prefix := IndexRow(lat, longBands, c - 1);
    assert IndexRow(lat, longBands, c) == prefix + QuadIndices(lat, c - 1, longBands);
    if long < c - 1 {
      IndexRowAt(lat, longBands, c - 1, long, t);
    }
  }

  /** Later rows start later. */
  lemma {:induction false} RowStartMonotone(a: nat, b: nat, longBands: nat)
    requires a <= b
    ensures RowStart(a, longBands) <= RowStart(b, longBands)
    decreases b
  {
    if a < b {
      RowStartMonotone(a, b - 1, longBands);
    }
  }

  /** Entry 6 long + t of row lat lies before the start of any later row. */
  lemma QuadBeforeLaterRow(lat: nat, n: nat, longBands: nat, long: nat, t: nat)
    requires lat < n && long < longBands && t < 6
    ensures RowStart(lat, longBands) + 6 * long + t < RowStart(n, longBands)
  {
    RowStartMonotone(lat + 1, n, longBands);
    assert RowStart(lat + 1, longBands) == RowStart(lat, longBands) + 6 * longBands;
  }

  /** Index RowStart(lat) + 6 long + t is entry t of the quad at (lat, long):
      the rows come one after another, the quads of a row six indices each. */
  lemma {:induction false} SphereIndicesAt(longBands: nat, n: nat, lat: nat, long: nat, t: nat)
    requires lat < n && long < longBands && t < 6
    ensures RowStart(lat, longBands) + 6 * long + t < |SphereIndices(longBands, n)|
    ensures SphereIndices(longBands, n)[RowStart(lat, longBands) + 6 * long + t] == QuadIndices(lat, long, longBands)[t]
  {
    var k := 6 * long + t;
    IndexRowAt(lat, longBands, longBands, long, t);
    SphereRowAt(longBands, n, lat, k);
  }

  /** Index RowStart(lat) + k is entry k of row lat. */
  lemma {:induction false} SphereRowAt(longBands: nat, n: nat, lat: nat, k: nat)
    requires lat < n && k < 6 * longBands
    ensures RowStart(lat, longBands) + k < |SphereIndices(longBands, n)|
    ensures SphereIndices(longBands, n)[RowStart(lat, longBands) + k] == IndexRow(lat, longBands, longBands)[k]
    decreases n
  {
    RowStartMonotone(lat + 1, n, longBands);
    var prefix := SphereIndices(longBands, n - 1);
    var row := IndexRow(n - 1, longBands, longBands);
    if lat < n - 1 {
      SphereRowAt(longBands, n - 1, lat, k);
      AppendAtLeft(prefix, row, RowStart(lat, longBands) + k);
    } else {
      AppendAtRight(prefix, row, k);
      assert |prefix| + k == RowStart(lat, longBands) + k;
    }
  }

  /** An index into the left part of a concatenation. */
  lemma AppendAtLeft(a: seq<nat>, b: seq<nat>, k: nat)
    requires k < |a|
    ensures (a + b)[k] == a[k]
  {
  }

  /** An index into the right part of a concatenation. */
  lemma AppendAtRight(a: seq<nat>, b: seq<nat>, k: nat)
    requires k < |b|
    ensures (a + b)[|a| + k] == b[k]
  {
  }

  // ---------------------------------------------------------------------
  // init

  /** `Sphere::init` for the given band counts: all vertices row by row,
      then all quads row by row. */
  function Init(latBands: nat, longBands: nat): (m: SphereMesh)
    requires latBands > 0 && longBands > 0
    ensures |m.vertices| == (latBands + 1) * (longBands + 1)
    ensures |m.indices| == 6 * latBands * longBands
  {
    RowStartIsProduct(latBands, longBands);
    SphereMesh(SphereVertices(latBands, longBands, latBands + 1), SphereIndices(longBands, latBands))
  }

  /** Every index `init` issues names one of its vertices, as long as the
      vertex count fits an `unsigned int`. */
  lemma InitIndicesInRange(latBands: nat, longBands: nat)
    requires latBands > 0 && longBands > 0 && (latBands + 1) * (longBands + 1) < U32_MODULUS
    ensures var m := Init(latBands, longBands);
      forall t | 0 <= t < |m.indices| :: m.indices[t] < |m.vertices|
  {
    SphereIndicesInRange(latBands, longBands, latBands);
  }

  /** The counts for 30 bands each way. */
  lemma BandCounts()
    ensures (LatitudeBands + 1) * (LongitudeBands + 1) == 961
    ensures 6 * LatitudeBands * LongitudeBands == 5400
  {
  }

  /** The sphere `init` builds: 31 x 31 = 961 vertices and
      6 x 30 x 30 = 5400 indices, every one naming a vertex. */
  lemma InitSphere()
    ensures var m := Init(LatitudeBands, LongitudeBands);
      && |m.vertices| == 961 && |m.indices| == 5400
      && forall t | 0 <= t < 5400 :: m.indices[t] < 961
  {
    BandCounts();
    InitIndicesInRange(LatitudeBands, LongitudeBands);
  }
}
