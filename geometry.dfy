/** The raw terrain geometry of `load_geomap.read_geometry`: a 256-byte name,
    a type and a vertex count (`'<256s2i'`), the vertices as float triples, a
    triangle count and the triangles as `<3H` index triples. The whole file
    must be consumed. */
module Geometry {
  import opened Bytes
  import opened Outcome
  import opened Reader

  datatype Vertex = Vertex(x: Word32, y: Word32, z: Word32)

  datatype Triangle = Triangle(i1: Word16, i2: Word16, i3: Word16)

  /** The returned pair `(verts, indexes)`. */
  datatype Mesh = Mesh(verts: seq<Vertex>, indexes: seq<Triangle>)

  const HEADER_SIZE: nat := 264

  function VertexAt(data: seq<Byte>, pos: nat, i: nat): (r: Result<(Vertex, nat)>)
    ensures r.Ok? <==> pos + 12 <= |data|
    ensures r.Ok? ==> r.value.1 == pos + 12
  {
    var w :- ReadWords(data, pos, 3);
    Ok((Vertex(w[0], w[1], w[2]), pos + 12))
  }

  function TriangleAt(data: seq<Byte>, pos: nat, i: nat): (r: Result<(Triangle, nat)>)
    ensures r.Ok? <==> pos + 6 <= |data|
    ensures r.Ok? ==> r.value.1 == pos + 6
  {
    var b :- Read(data, pos, 6);
    Ok((TriangleOf(b), pos + 6))
  }

  /** `<3H`: three unsigned 16-bit indices. */
  function TriangleOf(b: seq<Byte>): Triangle
    requires |b| == 6
  {
    Triangle(U16(b[0..2]), U16(b[2..4]), U16(b[4..6]))
  }

  function EncodeVertex(v: Vertex): (s: seq<Byte>)
    ensures |s| == 12
  {
    EncodeWords([v.x, v.y, v.z])
  }

  function EncodeTriangle(t: Triangle): (s: seq<Byte>)
    ensures |s| == 6
  {
    EncodeU16(t.i1) + EncodeU16(t.i2) + EncodeU16(t.i3)
  }

  /** The whole call: both counts are signed, and a negative count reads
      nothing; bytes left after the triangles fail the final assertion. */
  function GeometrySpec(data: seq<Byte>): Result<Mesh>
  {
    var header :- Read(data, 0, HEADER_SIZE);
    var verts := Repeat(VertexAt, data, HEADER_SIZE, RangeLength(I32(header[260..])));
    if verts.end.Err? then Err(verts.end.error)
    else
      var tris :- TrianglesFrom(data, verts.end.value);
      Ok(Mesh(verts.items, tris))
  }

  /** The part after the vertices: the triangle count, the triangles and the
      check that they end the file. */
  function TrianglesFrom(data: seq<Byte>, pos: nat): Result<seq<Triangle>>
  {
    var triangleCount :- ReadI32(data, pos);
    var tris := Repeat(TriangleAt, data, pos + 4, RangeLength(triangleCount));
    if tris.end.Err? then Err(tris.end.error)
    else if tris.end.value != |data| then Err(AssertionFailed)
    else Ok(tris.items)
  }

  method ReadVertex(data: seq<Byte>, pos: nat, ghost i: nat) returns (r: Result<(Vertex, nat)>)
    ensures r == VertexAt(data, pos, i)
  {
    var w :- ReadWords(data, pos, 3);
    r := Ok((Vertex(w[0], w[1], w[2]), pos + 12));
  }

  method ReadTriangle(data: seq<Byte>, pos: nat, ghost i: nat) returns (r: Result<(Triangle, nat)>)
    ensures r == TriangleAt(data, pos, i)
  {
    var b :- Read(data, pos, 6);
    r := Ok((TriangleOf(b), pos + 6));
  }

  /** The vertex loop (lines 271-273), from the cursor after the header. */
  method ReadVertices(data: seq<Byte>, count: int) returns (verts: seq<Vertex>, end: Result<nat>)
    ensures Repeat(VertexAt, data, HEADER_SIZE, RangeLength(count)) == Run(verts, end)
  {
    var pos: nat := HEADER_SIZE;
    verts := [];
    var i: nat := 0;
    while i < count
      invariant i <= RangeLength(count)
      invariant Repeat(VertexAt, data, HEADER_SIZE, i) == Run(verts, Ok(pos))
      decreases count - i
    {
      var step := ReadVertex(data, pos, i);
      if step.Err? {
        RepeatFailsAt(VertexAt, data, HEADER_SIZE, i, verts, pos, RangeLength(count));
        return verts, Err(step.error);
      }
      RepeatStep(VertexAt, data, HEADER_SIZE, i, verts, pos, step.value.0, step.value.1);
      verts := verts + [step.value.0];
      pos := step.value.1;
      i := i + 1;
      assert Repeat(VertexAt, data, HEADER_SIZE, i) == Run(verts, Ok(pos));
    }
    end := Ok(pos);
  }

  /** The triangle loop (lines 276-278), from the cursor after the count. */
  method ReadTriangles(data: seq<Byte>, start: nat, count: int) returns (tris: seq<Triangle>, end: Result<nat>)
    ensures Repeat(TriangleAt, data, start, RangeLength(count)) == Run(tris, end)
  {
    var pos: nat := start;
    tris := [];
    var i: nat := 0;
    while i < count
      invariant i <= RangeLength(count)
      invariant Repeat(TriangleAt, data, start, i) == Run(tris, Ok(pos))
      decreases count - i
    {
      var step := ReadTriangle(data, pos, i);
      if step.Err? {
        RepeatFailsAt(TriangleAt, data, start, i, tris, pos, RangeLength(count));
        return tris, Err(step.error);
      }
      RepeatStep(TriangleAt, data, start, i, tris, pos, step.value.0, step.value.1);
      tris := tris + [step.value.0];
      pos := step.value.1;
      i := i + 1;
      assert Repeat(TriangleAt, data, start, i) == Run(tris, Ok(pos));
    }
    end := Ok(pos);
  }

  method ReadTail(data: seq<Byte>, pos: nat) returns (r: Result<seq<Triangle>>)
    ensures r == TrianglesFrom(data, pos)
  {
    var triangleCount :- ReadI32(data, pos);
    var indexes, tend := ReadTriangles(data, pos + 4, triangleCount);
    if tend.Err? {
      return Err(tend.error);
    }
    if tend.value != |data| {
      return Err(AssertionFailed);
    }
    r := Ok(indexes);
  }

  /** `read_geometry`. */
  method ReadGeometry(data: seq<Byte>) returns (r: Result<Mesh>)
    ensures r == GeometrySpec(data)
  {
    var header :- Read(data, 0, HEADER_SIZE);
    var vertexCount := I32(header[260..]);
    var verts, vend := ReadVertices(data, vertexCount);
    if vend.Err? {
      return Err(vend.error);
    }
    var indexes :- ReadTail(data, vend.value);
    r := Ok(Mesh(verts, indexes));
  }

  /** A file holding the given mesh under the given name and type, with
      counts that match the lists. */
  function EncodeGeometry(name: seq<Byte>, modelType: int, verts: seq<Vertex>, tris: seq<Triangle>): (s: seq<Byte>)
    requires |name| == 256 && -TWO_31 <= modelType < TWO_31
    requires |verts| < TWO_31 && |tris| < TWO_31
  {
    name + EncodeI32(modelType) + EncodeI32(|verts|) + Concat(EncodeVertex, verts) + EncodeI32(|tris|) + Concat(EncodeTriangle, tris)
  }

  lemma {:induction false} VertexRoundTrip(v: Vertex, data: seq<Byte>, pos: nat, i: nat)
    requires pos + 12 <= |data| && data[pos..pos + 12] == EncodeVertex(v)
    ensures VertexAt(data, pos, i) == Ok((v, pos + 12))
  {
    ReadWordsRoundTrip([v.x, v.y, v.z], data, pos);
  }

  lemma {:induction false} TriangleRoundTrip(t: Triangle, data: seq<Byte>, pos: nat, i: nat)
    requires pos + 6 <= |data| && data[pos..pos + 6] == EncodeTriangle(t)
    ensures TriangleAt(data, pos, i) == Ok((t, pos + 6))
  {
    var b := data[pos..pos + 6];
    assert b[0..2] == EncodeU16(t.i1) && b[2..4] == EncodeU16(t.i2) && b[4..6] == EncodeU16(t.i3);
    U16RoundTrip(t.i1);
    U16RoundTrip(t.i2);
    U16RoundTrip(t.i3);
  }

  lemma {:induction false} VerticesDecodeAll(verts: seq<Vertex>, data: seq<Byte>, pos: nat)
    requires pos + |Concat(EncodeVertex, verts)| <= |data|
    requires data[pos..pos + |Concat(EncodeVertex, verts)|] == Concat(EncodeVertex, verts)
    ensures DecodesAll(VertexAt, EncodeVertex, verts, data, pos)
  {
    forall k | 0 <= k < |verts|
      ensures VertexAt(data, Offset(EncodeVertex, verts, pos, k), k) == Ok((verts[k], Offset(EncodeVertex, verts, pos, k + 1)))
    {
      ItemAt(EncodeVertex, verts, data, pos, k);
      VertexRoundTrip(verts[k], data, Offset(EncodeVertex, verts, pos, k), k);
    }
  }

  lemma {:induction false} TrianglesDecodeAll(tris: seq<Triangle>, data: seq<Byte>, pos: nat)
    requires pos + |Concat(EncodeTriangle, tris)| <= |data|
    requires data[pos..pos + |Concat(EncodeTriangle, tris)|] == Concat(EncodeTriangle, tris)
    ensures DecodesAll(TriangleAt, EncodeTriangle, tris, data, pos)
  {
    forall k | 0 <= k < |tris|
      ensures TriangleAt(data, Offset(EncodeTriangle, tris, pos, k), k) == Ok((tris[k], Offset(EncodeTriangle, tris, pos, k + 1)))
    {
      ItemAt(EncodeTriangle, tris, data, pos, k);
      TriangleRoundTrip(tris[k], data, Offset(EncodeTriangle, tris, pos, k), k);
    }
  }

  /** The sections of a file laid out as `EncodeGeometry` lays them out read
      back as the lists they hold, whatever follows them. */
  lemma {:induction false} SectionsRead(data: seq<Byte>, verts: seq<Vertex>, tris: seq<Triangle>)
    requires HEADER_SIZE + |Concat(EncodeVertex, verts)| + 4 + |Concat(EncodeTriangle, tris)| <= |data|
    requires I32(data[260..264]) == |verts|
    requires data[HEADER_SIZE..HEADER_SIZE + |Concat(EncodeVertex, verts)|] == Concat(EncodeVertex, verts)
    requires var vend := HEADER_SIZE + |Concat(EncodeVertex, verts)|;
      ReadI32(data, vend) == Ok(|tris|) &&
      data[vend + 4..vend + 4 + |Concat(EncodeTriangle, tris)|] == Concat(EncodeTriangle, tris)
    ensures var vend := HEADER_SIZE + |Concat(EncodeVertex, verts)|;
      GeometrySpec(data) ==
        if vend + 4 + |Concat(EncodeTriangle, tris)| == |data| then Ok(Mesh(verts, tris)) else Err(AssertionFailed)
  {
    var vend := HEADER_SIZE + |Concat(EncodeVertex, verts)|;
    var header := Read(data, 0, HEADER_SIZE).value;
    assert header[260..] == data[260..264];
    VerticesRead(data, verts);
    TailRead(data, vend, tris);
  }

  lemma {:induction false} TailRead(data: seq<Byte>, pos: nat, tris: seq<Triangle>)
    requires pos + 4 + |Concat(EncodeTriangle, tris)| <= |data|
    requires ReadI32(data, pos) == Ok(|tris|)
    requires data[pos + 4..pos + 4 + |Concat(EncodeTriangle, tris)|] == Concat(EncodeTriangle, tris)
    ensures TrianglesFrom(data, pos) ==
      if pos + 4 + |Concat(EncodeTriangle, tris)| == |data| then Ok(tris) else Err(AssertionFailed)
  {
    TrianglesRead(data, pos + 4, tris);
  }

  lemma {:induction false} VerticesRead(data: seq<Byte>, verts: seq<Vertex>)
    requires HEADER_SIZE + |Concat(EncodeVertex, verts)| <= |data|
    requires data[HEADER_SIZE..HEADER_SIZE + |Concat(EncodeVertex, verts)|] == Concat(EncodeVertex, verts)
    ensures Repeat(VertexAt, data, HEADER_SIZE, |verts|)
      == Run(verts, Ok(HEADER_SIZE + |Concat(EncodeVertex, verts)|))
  {
    VerticesDecodeAll(verts, data, HEADER_SIZE);
    RepeatReadsAll(VertexAt, EncodeVertex, verts, data, HEADER_SIZE);
  }

  lemma {:induction false} TrianglesRead(data: seq<Byte>, pos: nat, tris: seq<Triangle>)
    requires pos + |Concat(EncodeTriangle, tris)| <= |data|
    requires data[pos..pos + |Concat(EncodeTriangle, tris)|] == Concat(EncodeTriangle, tris)
    ensures Repeat(TriangleAt, data, pos, |tris|)
      == Run(tris, Ok(pos + |Concat(EncodeTriangle, tris)|))
  {
    TrianglesDecodeAll(tris, data, pos);
    RepeatReadsAll(TriangleAt, EncodeTriangle, tris, data, pos);
  }

  /** Reading an encoded mesh gives the vertices and triangles back. */
  lemma {:induction false} GeometryRoundTrip(name: seq<Byte>, modelType: int, verts: seq<Vertex>, tris: seq<Triangle>)
    requires |name| == 256 && -TWO_31 <= modelType < TWO_31
    requires |verts| < TWO_31 && |tris| < TWO_31
    ensures GeometrySpec(EncodeGeometry(name, modelType, verts, tris)) == Ok(Mesh(verts, tris))
  {
    Layout(name, modelType, verts, tris, []);
    assert EncodeGeometry(name, modelType, verts, tris) + [] == EncodeGeometry(name, modelType, verts, tris);
  }

  /** Nothing may follow the triangles: the same mesh with trailing bytes
      fails the final assertion. */
  lemma {:induction false} TrailingBytesFail(name: seq<Byte>, modelType: int, verts: seq<Vertex>, tris: seq<Triangle>, trailing: seq<Byte>)
    requires |name| == 256 && -TWO_31 <= modelType < TWO_31
    requires |verts| < TWO_31 && |tris| < TWO_31
    requires trailing != []
    ensures GeometrySpec(EncodeGeometry(name, modelType, verts, tris) + trailing) == Err(AssertionFailed)
  {
    Layout(name, modelType, verts, tris, trailing);
  }

  lemma {:induction false} Layout(name: seq<Byte>, modelType: int, verts: seq<Vertex>, tris: seq<Triangle>, trailing: seq<Byte>)
    requires |name| == 256 && -TWO_31 <= modelType < TWO_31
    requires |verts| < TWO_31 && |tris| < TWO_31
    ensures var data := EncodeGeometry(name, modelType, verts, tris) + trailing;
      GeometrySpec(data) == if trailing == [] then Ok(Mesh(verts, tris)) else Err(AssertionFailed)
  {
    var data := EncodeGeometry(name, modelType, verts, tris) + trailing;
    var cv, ct := Concat(EncodeVertex, verts), Concat(EncodeTriangle, tris);
    var vend := HEADER_SIZE + |cv|;
    var head := name + EncodeI32(modelType) + EncodeI32(|verts|);
    var tail := EncodeI32(|tris|) + ct;
    assert data == head + cv + tail + trailing;
    assert I32(data[260..264]) == |verts| by {
      assert data[260..264] == head[260..264] == EncodeI32(|verts|);
      I32RoundTrip(|verts|);
    }
    assert ReadI32(data, vend) == Ok(|tris|) by {
      assert data[vend..vend + 4] == tail[..4] == EncodeI32(|tris|);
      ReadI32RoundTrip(|tris|, data, vend);
    }
    assert data[HEADER_SIZE..vend] == cv;
    assert data[vend + 4..vend + 4 + |ct|] == tail[4..] == ct;
    SectionsRead(data, verts, tris);
  }

  lemma {:induction false} VerticesEncode()
    ensures EncodesEach(VertexAt, EncodeVertex)
  {
    var entry: (seq<Byte>, nat, nat) -> Result<(Vertex, nat)> := VertexAt;
    var enc: Vertex -> seq<Byte> := EncodeVertex;
    forall d: seq<Byte>, p: nat, i: nat | entry(d, p, i).Ok?
      ensures p + |enc(entry(d, p, i).value.0)| <= |d| && entry(d, p, i).value.1 == p + |enc(entry(d, p, i).value.0)|
      ensures d[p..entry(d, p, i).value.1] == enc(entry(d, p, i).value.0)
    {
      ReadWordsSound(d, p, 3);
      var w := ReadWords(d, p, 3).value;
      assert [w[0], w[1], w[2]] == w;
    }
  }

  lemma {:induction false} TrianglesEncode()
    ensures EncodesEach(TriangleAt, EncodeTriangle)
  {
    var entry: (seq<Byte>, nat, nat) -> Result<(Triangle, nat)> := TriangleAt;
    var enc: Triangle -> seq<Byte> := EncodeTriangle;
    forall d: seq<Byte>, p: nat, i: nat | entry(d, p, i).Ok?
      ensures p + |enc(entry(d, p, i).value.0)| <= |d| && entry(d, p, i).value.1 == p + |enc(entry(d, p, i).value.0)|
      ensures d[p..entry(d, p, i).value.1] == enc(entry(d, p, i).value.0)
    {
      var b := d[p..p + 6];
      U16Inverse(b[0..2]);
      U16Inverse(b[2..4]);
      U16Inverse(b[4..6]);
      assert b == b[0..2] + b[2..4] + b[4..6];
    }
  }

  /** Every mesh read comes from a file of exactly this layout: the header,
      the vertex encodings, a count and the triangle encodings, with each
      count equal to its list's length or negative before an empty list. */
  lemma {:induction false} GeometrySound(data: seq<Byte>)
    requires GeometrySpec(data).Ok?
    ensures var m := GeometrySpec(data).value;
      |data| == HEADER_SIZE + 12 * |m.verts| + 4 + 6 * |m.indexes|
    ensures var m := GeometrySpec(data).value;
      data[HEADER_SIZE..HEADER_SIZE + 12 * |m.verts|] == Concat(EncodeVertex, m.verts)
    ensures var m := GeometrySpec(data).value;
      data[HEADER_SIZE + 12 * |m.verts| + 4..] == Concat(EncodeTriangle, m.indexes)
    ensures var m := GeometrySpec(data).value;
      I32(data[260..264]) == |m.verts| || (I32(data[260..264]) < 0 && m.verts == [])
    ensures var m := GeometrySpec(data).value;
      var vend := HEADER_SIZE + 12 * |m.verts|;
      I32(data[vend..vend + 4]) == |m.indexes| || (I32(data[vend..vend + 4]) < 0 && m.indexes == [])
  {
    var m := GeometrySpec(data).value;
    var count := I32(data[260..264]);
    assert Read(data, 0, HEADER_SIZE).value[260..] == data[260..264];
    var vs := Repeat(VertexAt, data, HEADER_SIZE, RangeLength(count));
    assert vs == Run(m.verts, Ok(vs.end.value));
    assert TrianglesFrom(data, vs.end.value) == Ok(m.indexes);
    VerticesSound(data, count, m.verts, vs.end.value);
    TailSound(data, vs.end.value, m.indexes);
  }

  lemma {:induction false} VerticesSound(data: seq<Byte>, count: int, verts: seq<Vertex>, end: nat)
    requires HEADER_SIZE <= |data|
    requires Repeat(VertexAt, data, HEADER_SIZE, RangeLength(count)) == Run(verts, Ok(end))
    ensures end == HEADER_SIZE + 12 * |verts| <= |data|
    ensures data[HEADER_SIZE..end] == Concat(EncodeVertex, verts)
    ensures count == |verts| || (count < 0 && verts == [])
  {
    VerticesEncode();
    RepeatSound(VertexAt, EncodeVertex, data, HEADER_SIZE, RangeLength(count));
    ConcatLength(EncodeVertex, 12, verts);
  }

  lemma {:induction false} TailSound(data: seq<Byte>, pos: nat, ts: seq<Triangle>)
    requires TrianglesFrom(data, pos) == Ok(ts)
    ensures |data| == pos + 4 + 6 * |ts|
    ensures data[pos + 4..] == Concat(EncodeTriangle, ts)
    ensures I32(data[pos..pos + 4]) == |ts| || (I32(data[pos..pos + 4]) < 0 && ts == [])
  {
    var count := ReadI32(data, pos).value;
    TrianglesEncode();
    RepeatSound(TriangleAt, EncodeTriangle, data, pos + 4, RangeLength(count));
    ConcatLength(EncodeTriangle, 6, ts);
  }
}
