/** The ASCII STL readers of 7/stl_light: `STLFile` in src/STL.cpp and the
    inline `STL` class of src/main.cpp. Both read the file line by line;
    a line containing "vertex " contributes its remaining words, parsed as
    floats, to the vertices, and otherwise a line containing
    "facet normal " contributes its words to the normals followed by six
    padding values. `STLFile` then overwrites the normals with one cross
    product per nine vertex floats. `std::stof` is a parameter. */
module Stl {
  import opened Common
  import opened Linear
  import opened Text

  /** What both classes keep: the flat float lists. */
  datatype Mesh = Mesh(vertices: seq<real>, normals: seq<real>)

  const EmptyMesh: Mesh := Mesh([], [])

  /** The marker of a vertex line, 7 characters with the blank. */
  const VertexTag: string := "vertex "

  /** The marker of a facet line, 13 characters with the blank. */
  const FacetTag: string := "facet normal "

  /** The vertex count `STLFile::Draw` always draws. */
  const DRAW_COUNT: nat := 4404

  /** How one line is read: the words after the marker, or nothing. */
  datatype LineKind = VertexLine(words: seq<string>) | FacetLine(words: seq<string>) | Ignored

  /** The branch a line takes. "vertex " is looked for first, so a line
      holding both markers is a vertex line. */
  function Classify(line: string): LineKind {
    match Find(line, VertexTag)
    case Some(p) => VertexLine(SpaceWords(line[p + |VertexTag|..]))
    case None =>
      match Find(line, FacetTag)
      case Some(p) => FacetLine(SpaceWords(line[p + |FacetTag|..]))
      case None => Ignored
  }

  /** A line is a vertex line exactly when "vertex " occurs in it, and a
      facet line exactly when "facet normal " does and "vertex " does not;
      its words are those after the first occurrence of the marker. */
  lemma ClassifyMeaning(line: string)
    ensures Classify(line).VertexLine? <==> exists p: nat :: OccursAt(line, VertexTag, p)
    ensures Classify(line).FacetLine? <==>
      (forall p: nat :: !OccursAt(line, VertexTag, p)) && exists p: nat :: OccursAt(line, FacetTag, p)
    ensures Classify(line).Ignored? <==>
      (forall p: nat :: !OccursAt(line, VertexTag, p)) && forall p: nat :: !OccursAt(line, FacetTag, p)
    ensures Classify(line).VertexLine? ==>
      Classify(line).words == SpaceWords(line[Find(line, VertexTag).value + |VertexTag|..])
    ensures Classify(line).FacetLine? ==>
      Classify(line).words == SpaceWords(line[Find(line, FacetTag).value + |FacetTag|..])
  {
  }

  /** `std::stof` applied to each word. */
  function Floats(words: seq<string>, stof: string -> real): (r: seq<real>)
    ensures |r| == |words|
  {
    seq(|words|, k requires 0 <= k < |words| => stof(words[k]))
  }

  /** The six values pushed after a facet line's words when the normals
      hold `size` entries: `threeBack = size - 1 - 3` and the two following
      integers, then the same again three entries later. They are integers
      converted to float, not copies of the normal. */
  function Padding(size: int): (r: seq<real>)
    ensures |r| == 6
  {
    seq(6, k requires 0 <= k < 6 => (size - 4 + k) as real)
  }

  /** One pass of the `getline` loop, on the line's classification. */
  function ReadLine(m: Mesh, k: LineKind, stof: string -> real): Mesh {
    match k
    case VertexLine(ws) => m.(vertices := m.vertices + Floats(ws, stof))
    case FacetLine(ws) =>
      var n := m.normals + Floats(ws, stof);
      m.(normals := n + Padding(|n|))
    case Ignored => m
  }

  /** The classification of every line, in order. */
  function Kinds(lines: seq<string>): (ks: seq<LineKind>)
    ensures |ks| == |lines| && forall i | 0 <= i < |lines| :: ks[i] == Classify(lines[i])
  {
    seq(|lines|, i requires 0 <= i < |lines| => Classify(lines[i]))
  }

  /** Number of floats the vertex lines contribute. */
  function VertexFloats(ks: seq<LineKind>): nat {
    if ks == [] then 0
    else
      var k := ks[|ks| - 1];
      VertexFloats(ks[..|ks| - 1]) + (if k.VertexLine? then |k.words| else 0)
  }

  /** Number of entries the facet lines contribute: their words and six
      padding values each. */
  function NormalFloats(ks: seq<LineKind>): nat {
    if ks == [] then 0
    else
      var k := ks[|ks| - 1];
      NormalFloats(ks[..|ks| - 1]) + (if k.FacetLine? then |k.words| + 6 else 0)
  }

  /** The `getline` loop over all lines of an opened file. */
  function Load(ks: seq<LineKind>, stof: string -> real): (m: Mesh)
    ensures |m.vertices| == VertexFloats(ks) && |m.normals| == NormalFloats(ks)
  {
    if ks == [] then EmptyMesh else ReadLine(Load(ks[..|ks| - 1], stof), ks[|ks| - 1], stof)
  }

  /** A vertex line appends exactly its parsed words to the vertices. */
  lemma ReadVertexLine(m: Mesh, ws: seq<string>, stof: string -> real)
    ensures ReadLine(m, VertexLine(ws), stof).normals == m.normals
    ensures |ReadLine(m, VertexLine(ws), stof).vertices| == |m.vertices| + |ws|
    ensures forall i | 0 <= i < |ws| :: ReadLine(m, VertexLine(ws), stof).vertices[|m.vertices| + i] == stof(ws[i])
    ensures ReadLine(m, VertexLine(ws), stof).vertices[..|m.vertices|] == m.vertices
  {
    var r := ReadLine(m, VertexLine(ws), stof);
    assert r.vertices == m.vertices + Floats(ws, stof);
  }

  /** A facet line with three words appends the parsed normal and then the
      integers s - 1 .. s + 4, where s is the number of normal entries
      before the line; the vertices are unchanged. */
  lemma ReadFacetLine(m: Mesh, ws: seq<string>, stof: string -> real)
    requires |ws| == 3
    ensures var s := |m.normals| as real;
      ReadLine(m, FacetLine(ws), stof) == m.(normals := m.normals +
        [stof(ws[0]), stof(ws[1]), stof(ws[2]), s - 1.0, s, s + 1.0, s + 2.0, s + 3.0, s + 4.0])
  {
    var n := m.normals + Floats(ws, stof);
    assert Floats(ws, stof) == [stof(ws[0]), stof(ws[1]), stof(ws[2])];
    assert |n| == |m.normals| + 3;
  }

  /** A line with neither marker changes nothing. */
  lemma ReadIgnoredLine(m: Mesh, line: string, stof: string -> real)
    requires (forall p: nat :: !OccursAt(line, VertexTag, p)) && (forall p: nat :: !OccursAt(line, FacetTag, p))
    ensures ReadLine(m, Classify(line), stof) == m
  {
    ClassifyMeaning(line);
  }

  /** The inline `STL` class of main.cpp: the lines of the file when it
      opens, and empty lists when it does not. There is no recomputation,
      so the padding values stay in the normals. */
  function LoadFile(file: Option<string>, stof: string -> real): (m: Mesh)
    ensures file.None? ==> m == EmptyMesh
    ensures file.Some? ==> m == Load(Kinds(Lines(file.value)), stof)
  {
    match file
    case None => EmptyMesh
    case Some(text) => Load(Kinds(Lines(text)), stof)
  }

  // ---------------------------------------------------------------------
  // Well-formed files

  /** Number of vertex lines and of facet lines. */
  function CountVertexLines(ks: seq<LineKind>): nat {
    if ks == [] then 0 else CountVertexLines(ks[..|ks| - 1]) + (if ks[|ks| - 1].VertexLine? then 1 else 0)
  }

  function CountFacetLines(ks: seq<LineKind>): nat {
    if ks == [] then 0 else CountFacetLines(ks[..|ks| - 1]) + (if ks[|ks| - 1].FacetLine? then 1 else 0)
  }

  /** Every vertex and facet line carries three numbers. */
  predicate ThreeWordsEach(ks: seq<LineKind>) {
    forall i | 0 <= i < |ks| :: !ks[i].Ignored? ==> |ks[i].words| == 3
  }

  /** A well-formed file: three numbers per line, three vertex lines per
      facet. */
  predicate WellFormed(ks: seq<LineKind>) {
    ThreeWordsEach(ks) && CountVertexLines(ks) == 3 * CountFacetLines(ks)
  }

  /** With three numbers per line, each vertex line adds 3 floats and each
      facet line 9 entries. */
  lemma {:induction false} ThreeWordsCounts(ks: seq<LineKind>)
    requires ThreeWordsEach(ks)
    ensures VertexFloats(ks) == 3 * CountVertexLines(ks)
    ensures NormalFloats(ks) == 9 * CountFacetLines(ks)
  {
    if ks != [] {
      var init := ks[..|ks| - 1];
      assert ThreeWordsEach(init) by {
        forall i | 0 <= i < |init| ensures !init[i].Ignored? ==> |init[i].words| == 3 {
          assert init[i] == ks[i];
        }
      }
      ThreeWordsCounts(init);
    }
  }

  /** A well-formed file gives as many normal entries as vertex floats, a
      multiple of nine: exactly what the recomputation needs. */
  lemma WellFormedSizes(ks: seq<LineKind>, stof: string -> real)
    requires WellFormed(ks)
    ensures var m := Load(ks, stof);
      |m.normals| == |m.vertices| && |m.vertices| % 9 == 0 && Recomputable(m)
  {
    ThreeWordsCounts(ks);
  }

  // ---------------------------------------------------------------------
  // Normal recomputation (STL.cpp only)

  /** The recomputation reads nine vertex floats per step and writes nine
      normal entries at the same positions, unchecked. */
  predicate Recomputable(m: Mesh) {
    |m.vertices| % 9 == 0 && |m.vertices| <= |m.normals|
  }

  function VecAt(s: seq<real>, i: nat): Vec3
    requires i + 2 < |s|
  {
    Vec3(s[i], s[i + 1], s[i + 2])
  }

  /** Component c of a vector: x, y, z for c = 0, 1, 2. */
  function Component(v: Vec3, c: nat): real {
    if c == 0 then v.x else if c == 1 then v.y else v.z
  }

  /** The normal of facet f: cross(v2 - v1, v3 - v2) of its three corners,
      without normalisation. */
  function FacetNormal(vs: seq<real>, f: nat): Vec3
    requires 9 * f + 8 < |vs|
  {
    var v1, v2, v3 := VecAt(vs, 9 * f), VecAt(vs, 9 * f + 3), VecAt(vs, 9 * f + 6);
    Cross(v2.Minus(v1), v3.Minus(v2))
  }

  /** The nine stores of one step: n written at i, i + 3 and i + 6. */
  function StoreNormal(s: seq<real>, i: nat, n: Vec3): (r: seq<real>)
    requires i + 9 <= |s|
    ensures |r| == |s|
    ensures forall k | 0 <= k < |s| :: r[k] == if i <= k < i + 9 then Component(n, (k - i) % 3) else s[k]
  {
    s[..i] + [n.x, n.y, n.z, n.x, n.y, n.z, n.x, n.y, n.z] + s[i + 9..]
  }

  /** Entry k of the recomputed normals: component k % 3 of the normal of
      facet k / 9. */
  function NormalEntry(vs: seq<real>, k: nat): real
    requires k < |vs| && |vs| % 9 == 0
  {
    FacetOfEntry(k, |vs|);
    Component(FacetNormal(vs, k / 9), k % 3)
  }

  /** Entry k of a list of whole facets lies in facet k / 9. */
  lemma FacetOfEntry(k: nat, n: nat)
    requires k < n && n % 9 == 0
    ensures 9 * (k / 9) + 8 < n
  {
    assert n == 9 * (n / 9);
    assert k / 9 < n / 9;
  }

  /** ns holds the recomputed normals below i and the original entries
      from i on. */
  predicate RecomputedUpTo(vs: seq<real>, ns: seq<real>, orig: seq<real>, i: nat)
    requires i <= |vs| && |vs| % 9 == 0
  {
    && |ns| == |orig| && i <= |ns|
    && (forall k | 0 <= k < i :: ns[k] == NormalEntry(vs, k))
    && (forall k | i <= k < |ns| :: ns[k] == orig[k])
  }

  /** The nine entries from a facet boundary i belong to facet i / 9, and
      entry k is component (k - i) % 3 of its vertex. */
  lemma EntryInFacet(i: nat, k: nat)
    requires i % 9 == 0 && i <= k < i + 9
    ensures k / 9 == i / 9 && k % 3 == (k - i) % 3
  {
    var q := i / 9;
    assert i == 9 * q;
    DivModUnique(k, 9, k - i, q);
    DivModUnique(k, 3, (k - i) % 3, 3 * q + (k - i) / 3);
  }

  /** A facet boundary below a whole number of facets leaves room for a
      whole facet. */
  lemma FacetFits(i: nat, n: nat)
    requires i < n && i % 9 == 0 && n % 9 == 0
    ensures i + 9 <= n
  {
    FacetOfEntry(i, n);
  }

  /** One step of the loop moves the boundary by one facet. */
  lemma RecomputeStep(vs: seq<real>, ns: seq<real>, orig: seq<real>, i: nat)
    requires i < |vs| && |vs| % 9 == 0 && i % 9 == 0 && |vs| <= |orig|
    requires RecomputedUpTo(vs, ns, orig, i)
    ensures i + 9 <= |vs| && RecomputedUpTo(vs, StoreNormal(ns, i, FacetNormal(vs, i / 9)), orig, i + 9)
  {
    FacetFits(i, |vs|);
    FacetOfEntry(i, |vs|);
    var n := FacetNormal(vs, i / 9);
    var ns' := StoreNormal(ns, i, n);
    forall k | i <= k < i + 9
      ensures ns'[k] == NormalEntry(vs, k)
    {
      EntryInFacet(i, k);
    }
  }

  /** The recomputation loop of STLFile::STLFile: normal entry k below the
      vertex count becomes component k % 3 of the normal of facet k / 9;
      later entries (the padding beyond the vertices) are kept. */
  method Recompute(m: Mesh) returns (r: Mesh)
    requires Recomputable(m)
    ensures r.vertices == m.vertices && |r.normals| == |m.normals|
    ensures forall k | 0 <= k < |m.vertices| :: r.normals[k] == NormalEntry(m.vertices, k)
    ensures forall k | |m.vertices| <= k < |m.normals| :: r.normals[k] == m.normals[k]
  {
    var vs := m.vertices;
    var ns := m.normals;
    var i := 0;
    while i < |vs|
      invariant i <= |vs| && i % 9 == 0
      invariant RecomputedUpTo(vs, ns, m.normals, i)
    {
      RecomputeStep(vs, ns, m.normals, i);
      ns := StoreNormal(ns, i, FacetNormal(vs, i / 9));
      i := i + 9;
    }
    r := Mesh(vs, ns);
  }

  /** STLFile::STLFile: read the file, then recompute every facet normal.
      A file that cannot be opened leaves both lists empty. */
  method NewStlFile(file: Option<string>, stof: string -> real) returns (m: Mesh)
    requires Recomputable(LoadFile(file, stof))
    ensures m.vertices == LoadFile(file, stof).vertices && |m.normals| == |LoadFile(file, stof).normals|
    ensures file.None? ==> m == EmptyMesh
    ensures |m.vertices| % 9 == 0 && forall k | 0 <= k < |m.vertices| :: m.normals[k] == NormalEntry(m.vertices, k)
  {
    var loaded := LoadFile(file, stof);
    m := Recompute(loaded);
  }

  /** For a well-formed file every normal entry is recomputed: the
      normals are the facet normals, each repeated for the facet's three
      vertices. */
  method WellFormedStlFile(text: string, stof: string -> real) returns (m: Mesh)
    requires WellFormed(Kinds(Lines(text)))
    ensures |m.normals| == |m.vertices| && |m.vertices| % 9 == 0
    ensures forall k | 0 <= k < |m.normals| :: m.normals[k] == NormalEntry(m.vertices, k)
  {
    WellFormedSizes(Kinds(Lines(text)), stof);
    m := NewStlFile(Some(text), stof);
  }

  /** The one draw call of STLFile::Draw. */
  datatype DrawCall = DrawArrays(first: nat, count: nat)

  /** STLFile::Draw: always 4404 vertices from the start of the buffer,
      whatever was loaded; with fewer than 4404 vertices loaded it draws
      past them. */
  function Draw(m: Mesh): (c: DrawCall)
    ensures c.first == 0 && c.count == DRAW_COUNT
    ensures |m.vertices| < 3 * DRAW_COUNT ==> |m.vertices| / 3 < c.count
  {
    DrawArrays(0, DRAW_COUNT)
  }

  // ---------------------------------------------------------------------
  // The padding as intended

  /** Each vertex of a facet carries the facet's normal: entry k of a
      facet's nine repeats entry k - 3. */
  predicate NormalsRepeat(ns: seq<real>) {
    forall k | 3 <= k < |ns| && k % 9 >= 3 :: ns[k] == ns[k - 3]
  }

  /** As written, the inline class breaks that on the first facet: after
      "facet normal 0 0 1" the entries are 0, 0, 1, -1, 0, 1, 2, 3, 4. */
  lemma PaddingIsNotACopy(ws: seq<string>, stof: string -> real)
    requires |ws| == 3 && stof(ws[0]) == 0.0 && stof(ws[1]) == 0.0 && stof(ws[2]) == 1.0
    ensures Load([FacetLine(ws)], stof).normals == [0.0, 0.0, 1.0, -1.0, 0.0, 1.0, 2.0, 3.0, 4.0]
    ensures !NormalsRepeat(Load([FacetLine(ws)], stof).normals)
  {
    assert [FacetLine(ws)][..0] == [];
    ReadFacetLine(EmptyMesh, ws, stof);
    var ns := Load([FacetLine(ws)], stof).normals;
    assert ns[3] != ns[0];
  }

  /** The evidently intended loop pass: a facet line's normal is stored
      once for each of its three vertices. */
  function ReadLineCopying(m: Mesh, k: LineKind, stof: string -> real): Mesh {
    match k
    case VertexLine(ws) => m.(vertices := m.vertices + Floats(ws, stof))
    case FacetLine(ws) =>
      var n := Floats(ws, stof);
      m.(normals := m.normals + n + n + n)
    case Ignored => m
  }

  /** The intended loop over all lines. */
  function LoadCopying(ks: seq<LineKind>, stof: string -> real): (m: Mesh)
    ensures m.vertices == Load(ks, stof).vertices
  {
    if ks == [] then EmptyMesh
    else ReadLineCopying(LoadCopying(ks[..|ks| - 1], stof), ks[|ks| - 1], stof)
  }

  /** With three numbers per line, the intended reader stores 9 entries per
      facet, as many as the written one, and the facet normal once per
      vertex. */
  lemma {:induction false} CopyingRepeatsNormals(ks: seq<LineKind>, stof: string -> real)
    requires ThreeWordsEach(ks)
    ensures var ns := LoadCopying(ks, stof).normals;
      |ns| == 9 * CountFacetLines(ks) == |Load(ks, stof).normals| && NormalsRepeat(ns)
  {
    ThreeWordsCounts(ks);
    if ks != [] {
      var init, last := ks[..|ks| - 1], ks[|ks| - 1];
      assert ThreeWordsEach(init) by {
        forall i | 0 <= i < |init| ensures !init[i].Ignored? ==> |init[i].words| == 3 {
          assert init[i] == ks[i];
        }
      }
      CopyingRepeatsNormals(init, stof);
      if last.FacetLine? {
        var prev := LoadCopying(init, stof).normals;
        var n := Floats(last.words, stof);
        AppendThreeCopies(prev, n);
      }
    }
  }

  /** Appending one normal three times to whole facets keeps every vertex
      carrying its facet's normal. */
  lemma AppendThreeCopies(prev: seq<real>, n: seq<real>)
    requires |prev| % 9 == 0 && NormalsRepeat(prev) && |n| == 3
    ensures |prev + n + n + n| % 9 == 0 && NormalsRepeat(prev + n + n + n)
  {
    var ns := prev + n + n + n;
    forall k | 3 <= k < |ns| && k % 9 >= 3 ensures ns[k] == ns[k - 3] {
      if k < |prev| {
        assert ns[k] == prev[k] && ns[k - 3] == prev[k - 3];
      } else {
        DivModUnique(k, 9, k - |prev|, |prev| / 9);
        assert ns[k] == n[(k - |prev|) % 3];
        assert ns[k - 3] == n[(k - 3 - |prev|) % 3];
      }
    }
  }
}
