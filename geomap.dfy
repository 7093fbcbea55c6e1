/** The placement map of `load_geomap.read_map`: an `<i` record count, then
    per record an `<h` name length, the name, three position floats, a 3x3
    matrix and one unknown float. The reader keeps a running bounding box of
    the positions of every record and returns one 13-tuple per kept record. */
module GeoMap {
  import opened Bytes
  import opened Outcome
  import opened Reader
  import opened Float32

  /** One returned tuple: the raw name, the position and the matrix. */
  datatype Geo = Geo(name: ShortBytes, x: Word32, y: Word32, z: Word32,
                     m00: Word32, m01: Word32, m02: Word32,
                     m10: Word32, m11: Word32, m12: Word32,
                     m20: Word32, m21: Word32, m22: Word32)

  /** One record of the file: the tuple plus the trailing unknown float,
      which the returned list does not carry. */
  datatype Record = Record(geo: Geo, unk: Word32)

  /** The logged bounds of the positions. */
  datatype Box = Box(minX: Word32, minY: Word32, minZ: Word32, maxX: Word32, maxY: Word32, maxZ: Word32)

  datatype MapResult = MapResult(geos: seq<Geo>, box: Box)

  /** Raw names of terrain geometry start with these bytes (compared as they
      are, without case folding). */
  const TERRAIN_PREFIX: seq<Byte> := Ascii("terrain_models\\")

  predicate IsTerrain(name: seq<Byte>) {
    TERRAIN_PREFIX <= name
  }

  /** One record at the cursor. A negative name length is a malformed
      `'<%ds3f'` format, rejected before anything is read. The name and the
      position are one unpack call; reading them one after the other fails
      in exactly the same cases, with the same error. */
  function RecordAt(data: seq<Byte>, pos: nat, i: nat): (r: Result<(Record, nat)>)
    ensures r.Ok? ==> r.value.1 == pos + |r.value.0.geo.name| + 54 <= |data|
  {
    var nameLen :- ReadI16(data, pos);
    if nameLen < 0 then Err(BadFormat)
    else
      var name :- Read(data, pos + 2, nameLen);
      var xyz :- ReadWords(data, pos + nameLen + 2, 3);
      var m :- ReadWords(data, pos + nameLen + 14, 9);
      var unk :- ReadWord(data, pos + nameLen + 50);
      Ok((Record(Geo(name, xyz[0], xyz[1], xyz[2], m[0], m[1], m[2], m[3], m[4], m[5], m[6], m[7], m[8]), unk),
          pos + nameLen + 54))
  }

  /** The bytes of one record as the file holds them. */
  function EncodeRecord(r: Record): (s: seq<Byte>)
    ensures |s| == |r.geo.name| + 54
  {
    EncodeI16(|r.geo.name|) + r.geo.name + EncodeWords(Position(r.geo)) + EncodeWords(Matrix(r.geo)) + EncodeU32(r.unk)
  }

  function Position(g: Geo): (ws: seq<Word32>)
    ensures |ws| == 3
  {
    [g.x, g.y, g.z]
  }

  function Matrix(g: Geo): (ws: seq<Word32>)
    ensures |ws| == 9
  {
    [g.m00, g.m01, g.m02, g.m10, g.m11, g.m12, g.m20, g.m21, g.m22]
  }

  /** Reading a record's encoding gives the record back, whatever follows. */
  lemma {:induction false} RecordRoundTrip(r: Record, data: seq<Byte>, pos: nat, i: nat)
    requires pos + |EncodeRecord(r)| <= |data|
    requires data[pos..pos + |EncodeRecord(r)|] == EncodeRecord(r)
    ensures RecordAt(data, pos, i) == Ok((r, pos + |EncodeRecord(r)|))
  {
    var g := r.geo;
    var n := |g.name|;
    var a, c, d, f := EncodeI16(n), EncodeWords(Position(g)), EncodeWords(Matrix(g)), EncodeU32(r.unk);
    SliceSplit(data, pos, a + g.name + c + d, f);
    SliceSplit(data, pos, a + g.name + c, d);
    SliceSplit(data, pos, a + g.name, c);
    SliceSplit(data, pos, a, g.name);
    ReadI16RoundTrip(n, data, pos);
    ReadWordsRoundTrip(Position(g), data, pos + n + 2);
    ReadWordsRoundTrip(Matrix(g), data, pos + n + 14);
    ReadWordRoundTrip(r.unk, data, pos + n + 50);
  }

  /** The fields of a record that reads successfully, field by field. */
  lemma {:induction false} RecordFields(data: seq<Byte>, pos: nat, i: nat)
    requires RecordAt(data, pos, i).Ok?
    ensures var (r, q) := RecordAt(data, pos, i).value;
      var n := |r.geo.name|;
      && ReadI16(data, pos) == Ok(n)
      && r.geo.name == data[pos + 2..pos + n + 2]
      && ReadWords(data, pos + n + 2, 3) == Ok(Position(r.geo))
      && ReadWords(data, pos + n + 14, 9) == Ok(Matrix(r.geo))
      && ReadWord(data, pos + n + 50) == Ok(r.unk)
      && q == pos + n + 54
  {
    var (r, q) := RecordAt(data, pos, i).value;
    var n := ReadI16(data, pos).value;
    var xyz := ReadWords(data, pos + n + 2, 3).value;
    var m := ReadWords(data, pos + n + 14, 9).value;
    assert r.geo.name == data[pos + 2..pos + n + 2];
    assert Position(r.geo) == xyz;
    assert Matrix(r.geo) == m;
  }

  /** A record that reads successfully is the encoding of what it returns. */
  lemma {:induction false} RecordSound(data: seq<Byte>, pos: nat, i: nat)
    requires RecordAt(data, pos, i).Ok?
    ensures var (r, q) := RecordAt(data, pos, i).value;
      pos + |EncodeRecord(r)| == q && data[pos..q] == EncodeRecord(r)
  {
    var (r, q) := RecordAt(data, pos, i).value;
    RecordFields(data, pos, i);
    FieldsFromReads(data, pos, |r.geo.name|, Position(r.geo), Matrix(r.geo), r.unk);
    RecordBytes(data, pos, r);
  }

  /** The fixed-size fields of a record sit where their encodings put them. */
  lemma {:induction false} FieldsFromReads(data: seq<Byte>, pos: nat, n: nat, xyz: seq<Word32>, m: seq<Word32>, unk: Word32)
    requires ReadI16(data, pos) == Ok(n) && ReadWords(data, pos + n + 2, 3) == Ok(xyz)
    requires ReadWords(data, pos + n + 14, 9) == Ok(m) && ReadWord(data, pos + n + 50) == Ok(unk)
    ensures pos + n + 54 <= |data|
    ensures data[pos..pos + 2] == EncodeI16(n)
    ensures data[pos + n + 2..pos + n + 14] == EncodeWords(xyz)
    ensures data[pos + n + 14..pos + n + 50] == EncodeWords(m)
    ensures data[pos + n + 50..pos + n + 54] == EncodeU32(unk)
  {
    ReadI16Sound(data, pos);
    ReadWordsSound(data, pos + n + 2, 3);
    ReadWordsSound(data, pos + n + 14, 9);
    ReadWordSound(data, pos + n + 50);
  }

  /** The five fields of a record, found in place, make up its encoding. */
  lemma {:induction false} RecordBytes(data: seq<Byte>, pos: nat, r: Record)
    requires pos + |r.geo.name| + 54 <= |data|
    requires var n := |r.geo.name|;
      && data[pos..pos + 2] == EncodeI16(n)
      && data[pos + 2..pos + n + 2] == r.geo.name
      && data[pos + n + 2..pos + n + 14] == EncodeWords(Position(r.geo))
      && data[pos + n + 14..pos + n + 50] == EncodeWords(Matrix(r.geo))
      && data[pos + n + 50..pos + n + 54] == EncodeU32(r.unk)
    ensures data[pos..pos + |r.geo.name| + 54] == EncodeRecord(r)
  {
    var n := |r.geo.name|;
    SliceJoin5(data, pos, pos + 2, pos + n + 2, pos + n + 14, pos + n + 50, pos + n + 54);
  }

  lemma {:induction false} RecordsEncode()
    ensures EncodesEach(RecordAt, EncodeRecord)
  {
    var entry: (seq<Byte>, nat, nat) -> Result<(Record, nat)> := RecordAt;
    var enc: Record -> seq<Byte> := EncodeRecord;
    forall d: seq<Byte>, p: nat, i: nat | entry(d, p, i).Ok?
      ensures p + |enc(entry(d, p, i).value.0)| <= |d| && entry(d, p, i).value.1 == p + |enc(entry(d, p, i).value.0)|
      ensures d[p..entry(d, p, i).value.1] == enc(entry(d, p, i).value.0)
    {
      RecordSound(d, p, i);
    }
  }

  /** The unpack calls of one iteration (lines 186-193). */
  method ReadRecord(data: seq<Byte>, pos: nat, ghost i: nat) returns (r: Result<(Record, nat)>)
    ensures r == RecordAt(data, pos, i)
  {
    var nameLen :- ReadI16(data, pos);
    if nameLen < 0 {
      return Err(BadFormat);
    }
    var name :- Read(data, pos + 2, nameLen);
    var xyz :- ReadWords(data, pos + nameLen + 2, 3);
    var m :- ReadWords(data, pos + nameLen + 14, 9);
    var unk :- ReadWord(data, pos + nameLen + 50);
    var geo := Geo(name, xyz[0], xyz[1], xyz[2], m[0], m[1], m[2], m[3], m[4], m[5], m[6], m[7], m[8]);
    r := Ok((Record(geo, unk), pos + nameLen + 54));
  }

  /** The records the loop reads: as many as the header count says. */
  function MapRecords(data: seq<Byte>): (r: Result<seq<Record>>)
  {
    var count :- ReadI32(data, 0);
    var run := Repeat(RecordAt, data, 4, RangeLength(count));
    if run.end.Err? then Err(run.end.error) else Ok(run.items)
  }

  function Xs(recs: seq<Record>): (ws: seq<Word32>)
    ensures |ws| == |recs|
  {
    seq(|recs|, k requires 0 <= k < |recs| => recs[k].geo.x)
  }

  function Ys(recs: seq<Record>): (ws: seq<Word32>)
    ensures |ws| == |recs|
  {
    seq(|recs|, k requires 0 <= k < |recs| => recs[k].geo.y)
  }

  function Zs(recs: seq<Record>): (ws: seq<Word32>)
    ensures |ws| == |recs|
  {
    seq(|recs|, k requires 0 <= k < |recs| => recs[k].geo.z)
  }

  /** The running `m = min(w, m)` over a non-empty list, started from its
      first element. */
  function RunMin(ws: seq<Word32>): Word32
    requires ws != []
  {
    var w := ws[|ws| - 1];
    if |ws| == 1 then Min(w, w) else Min(w, RunMin(ws[..|ws| - 1]))
  }

  /** The running `m = max(w, m)`. */
  function RunMax(ws: seq<Word32>): Word32
    requires ws != []
  {
    var w := ws[|ws| - 1];
    if |ws| == 1 then Max(w, w) else Max(w, RunMax(ws[..|ws| - 1]))
  }

  /** The bounds the loop has accumulated after reading `recs`; `None` while
      no record has been read. */
  function BoxOf(recs: seq<Record>): Option<Box>
  {
    if recs == [] then None
    else Some(Box(RunMin(Xs(recs)), RunMin(Ys(recs)), RunMin(Zs(recs)),
                  RunMax(Xs(recs)), RunMax(Ys(recs)), RunMax(Zs(recs))))
  }

  /** The returned list: every record's tuple, or only the terrain ones. */
  function Kept(recs: seq<Record>, terrainOnly: bool): seq<Geo>
  {
    if recs == [] then []
    else
      var r := recs[|recs| - 1];
      Kept(recs[..|recs| - 1], terrainOnly) + (if !terrainOnly || IsTerrain(r.geo.name) then [r.geo] else [])
  }

  /** The whole call. The final log line formats the bounds with `%.4f`,
      which fails while they are still `None`. */
  function MapSpec(data: seq<Byte>, terrainOnly: bool): Result<MapResult>
  {
    var recs :- MapRecords(data);
    if recs == [] then Err(NoneFormatted)
    else Ok(MapResult(Kept(recs, terrainOnly), BoxOf(recs).value))
  }

  /** One more record moves every bound by one `min`/`max` step. */
  lemma {:induction false} BoxOfSnoc(recs: seq<Record>, r: Record)
    ensures var b := if recs == [] then Box(r.geo.x, r.geo.y, r.geo.z, r.geo.x, r.geo.y, r.geo.z) else BoxOf(recs).value;
      BoxOf(recs + [r]) == Some(Box(Min(r.geo.x, b.minX), Min(r.geo.y, b.minY), Min(r.geo.z, b.minZ),
                                    Max(r.geo.x, b.maxX), Max(r.geo.y, b.maxY), Max(r.geo.z, b.maxZ)))
  {
    var rs := recs + [r];
    assert Xs(rs)[..|recs|] == Xs(recs);
    assert Ys(rs)[..|recs|] == Ys(recs);
    assert Zs(rs)[..|recs|] == Zs(recs);
  }

  /** When the loop stops at a record that fails, the call fails with that
      record's error. */
  lemma {:induction false} MapStopsAt(data: seq<Byte>, terrainOnly: bool, count: int, i: nat, recs: seq<Record>, pos: nat)
    requires ReadI32(data, 0) == Ok(count)
    requires i < RangeLength(count)
    requires Repeat(RecordAt, data, 4, i) == Run(recs, Ok(pos))
    requires RecordAt(data, pos, i).Err?
    ensures MapSpec(data, terrainOnly) == Err(RecordAt(data, pos, i).error)
  {
    RepeatStops(RecordAt, data, 4, i + 1, RangeLength(count));
  }

  /** When the loop has run its course, the call's outcome is decided by
      the records it read. */
  lemma {:induction false} MapLoopDone(data: seq<Byte>, terrainOnly: bool, count: int, recs: seq<Record>, pos: nat)
    requires ReadI32(data, 0) == Ok(count)
    requires Repeat(RecordAt, data, 4, RangeLength(count)) == Run(recs, Ok(pos))
    ensures MapSpec(data, terrainOnly) == if recs == [] then Err(NoneFormatted) else Ok(MapResult(Kept(recs, terrainOnly), BoxOf(recs).value))
  {
  }

  /** `read_map(data, terrain_only=...)` without name resolution or dumping. */
  method ReadMap(data: seq<Byte>, terrainOnly: bool) returns (r: Result<MapResult>)
    ensures r == MapSpec(data, terrainOnly)
  {
    var countField :- Read(data, 0, 4);
    var count := I32(countField);
    var pos: nat := 4;
    var box: Option<Box> := None;
    var geos: seq<Geo> := [];
    ghost var recs: seq<Record> := [];
    var i: nat := 0;
    while i < count
      invariant i <= RangeLength(count)
      invariant Repeat(RecordAt, data, 4, i) == Run(recs, Ok(pos))
      invariant geos == Kept(recs, terrainOnly)
      invariant box == BoxOf(recs)
      decreases count - i
    {
      var step := ReadRecord(data, pos, i);
      if step.Err? {
        MapStopsAt(data, terrainOnly, count, i, recs, pos);
        return Err(step.error);
      }
      var (rec, next) := step.value;
      var x, y, z := rec.geo.x, rec.geo.y, rec.geo.z;
      var b := if box.None? then Box(x, y, z, x, y, z) else box.value;
      box := Some(Box(Min(x, b.minX), Min(y, b.minY), Min(z, b.minZ), Max(x, b.maxX), Max(y, b.maxY), Max(z, b.maxZ)));
      if !terrainOnly || IsTerrain(rec.geo.name) {
        geos := geos + [rec.geo];
      }
      BoxOfSnoc(recs, rec);
      RepeatStep(RecordAt, data, 4, i, recs, pos, rec, next);
      assert Repeat(RecordAt, data, 4, i + 1) == Run(recs + [rec], Ok(next));
      assert (recs + [rec])[..|recs|] == recs;
      recs := recs + [rec];
      pos := next;
      i := i + 1;
      assert Repeat(RecordAt, data, 4, i) == Run(recs, Ok(pos));
    }
    assert i == RangeLength(count);
    MapLoopDone(data, terrainOnly, count, recs, pos);
    if box.None? {
      return Err(NoneFormatted);
    }
    r := Ok(MapResult(geos, box.value));
  }

  /** The file holding `recs` behind its count. */
  function EncodeMap(recs: seq<Record>): (s: seq<Byte>)
    requires |recs| < TWO_31
  {
    EncodeI32(|recs|) + Concat(EncodeRecord, recs)
  }

  /** Reading an encoded map gives back every record's tuple (or the terrain
      ones) and the bounds of all positions; bytes after the last record are
      never looked at. */
  lemma {:induction false} MapRoundTrip(recs: seq<Record>, terrainOnly: bool, trailing: seq<Byte>)
    requires 0 < |recs| < TWO_31
    ensures MapSpec(EncodeMap(recs) + trailing, terrainOnly) == Ok(MapResult(Kept(recs, terrainOnly), BoxOf(recs).value))
  {
    var data := EncodeMap(recs) + trailing;
    var body := Concat(EncodeRecord, recs);
    assert data[..4] == EncodeI32(|recs|);
    I32RoundTrip(|recs|);
    assert data[4..4 + |body|] == body;
    RecordsDecodeAll(recs, data, 4);
    RepeatRoundTrip(RecordAt, EncodeRecord, recs, data, 4);
  }

  /** Each record of an encoded list reads back where it sits. */
  lemma {:induction false} RecordsDecodeAll(recs: seq<Record>, data: seq<Byte>, pos: nat)
    requires pos + |Concat(EncodeRecord, recs)| <= |data|
    requires data[pos..pos + |Concat(EncodeRecord, recs)|] == Concat(EncodeRecord, recs)
    ensures DecodesAll(RecordAt, EncodeRecord, recs, data, pos)
  {
    forall k | 0 <= k < |recs|
      ensures RecordAt(data, Offset(EncodeRecord, recs, pos, k), k) == Ok((recs[k], Offset(EncodeRecord, recs, pos, k + 1)))
    {
      RecordDecodesAt(recs, data, pos, k);
    }
  }

  /** Record `k` of an encoded list reads back where it sits. */
  lemma {:induction false} RecordDecodesAt(recs: seq<Record>, data: seq<Byte>, pos: nat, k: nat)
    requires k < |recs|
    requires pos + |Concat(EncodeRecord, recs)| <= |data|
    requires data[pos..pos + |Concat(EncodeRecord, recs)|] == Concat(EncodeRecord, recs)
    ensures RecordAt(data, Offset(EncodeRecord, recs, pos, k), k) == Ok((recs[k], Offset(EncodeRecord, recs, pos, k + 1)))
  {
    var a := Offset(EncodeRecord, recs, pos, k);
    var e := EncodeRecord(recs[k]);
    ItemAt(EncodeRecord, recs, data, pos, k);
    assert Offset(EncodeRecord, recs, pos, k + 1) == a + |e| <= |data| && data[a..a + |e|] == e;
    RecordRoundTrip(recs[k], data, a, k);
  }

  /** Every successful read comes from such a file: the data starts with the
      encoding of the records read. */
  lemma {:induction false} MapSound(data: seq<Byte>, terrainOnly: bool)
    requires MapSpec(data, terrainOnly).Ok?
    ensures MapRecords(data).Ok?
    ensures var recs := MapRecords(data).value;
      |recs| < TWO_31 && EncodeMap(recs) <= data
  {
    var count := ReadI32(data, 0).value;
    var recs := MapRecords(data).value;
    RecordsEncode();
    RepeatSound(RecordAt, EncodeRecord, data, 4, RangeLength(count));
    I32Inverse(data[..4]);
    assert I32(data[..4]) == count == |recs|;
    var q := 4 + |Concat(EncodeRecord, recs)|;
    assert data[4..q] == Concat(EncodeRecord, recs);
    assert data[..4] == EncodeI32(|recs|);
    assert data[..q] == data[..4] + data[4..q];
    assert EncodeMap(recs) == data[..q];
  }

  /** Without the filter the list has one tuple per record of the header
      count, in file order. */
  lemma {:induction false} KeptAll(recs: seq<Record>)
    ensures |Kept(recs, false)| == |recs|
    ensures forall k :: 0 <= k < |recs| ==> Kept(recs, false)[k] == recs[k].geo
    decreases |recs|
  {
    if recs != [] {
      KeptAll(recs[..|recs| - 1]);
    }
  }

  lemma {:induction false} MapCount(data: seq<Byte>)
    requires MapSpec(data, false).Ok?
    ensures |MapSpec(data, false).value.geos| == I32(data[..4])
    ensures forall k :: 0 <= k < I32(data[..4]) ==> MapSpec(data, false).value.geos[k] == MapRecords(data).value[k].geo
  {
    KeptAll(MapRecords(data).value);
  }

  /** With the filter, exactly the terrain records are kept. */
  lemma {:induction false} KeptTerrain(recs: seq<Record>)
    ensures forall g :: g in Kept(recs, true) ==> IsTerrain(g.name)
    ensures forall k :: 0 <= k < |recs| && IsTerrain(recs[k].geo.name) ==> recs[k].geo in Kept(recs, true)
    decreases |recs|
  {
    if recs != [] {
      var front := recs[..|recs| - 1];
      KeptTerrain(front);
      forall k | 0 <= k < |recs| - 1
        ensures recs[k] == front[k]
      {
      }
    }
  }

  /** Bounds of a running `min`: below every value and attained, when no
      value is NaN. */
  lemma {:induction false} RunMinBound(ws: seq<Word32>)
    requires ws != []
    requires forall k :: 0 <= k < |ws| ==> !IsNaN(ws[k])
    ensures forall k :: 0 <= k < |ws| ==> LessEq(RunMin(ws), ws[k])
    ensures RunMin(ws) in ws
    decreases |ws|
  {
    if |ws| > 1 {
      var front := ws[..|ws| - 1];
      RunMinBound(front);
      forall k | 0 <= k < |ws|
        ensures LessEq(RunMin(ws), ws[k])
      {
        if k < |ws| - 1 {
          assert ws[k] == front[k];
          LessEqTrans(RunMin(ws), RunMin(front), ws[k]);
        }
      }
    }
  }

  lemma {:induction false} RunMaxBound(ws: seq<Word32>)
    requires ws != []
    requires forall k :: 0 <= k < |ws| ==> !IsNaN(ws[k])
    ensures forall k :: 0 <= k < |ws| ==> LessEq(ws[k], RunMax(ws))
    ensures RunMax(ws) in ws
    decreases |ws|
  {
    if |ws| > 1 {
      var front := ws[..|ws| - 1];
      RunMaxBound(front);
      forall k | 0 <= k < |ws|
        ensures LessEq(ws[k], RunMax(ws))
      {
        if k < |ws| - 1 {
          assert ws[k] == front[k];
          LessEqTrans(ws[k], RunMax(front), RunMax(ws));
        }
      }
    }
  }

  /** Every record read, kept or filtered out, lies inside the logged box,
      and each bound is some record's coordinate, as long as no coordinate
      is NaN. */
  lemma {:induction false} BoxContains(recs: seq<Record>)
    requires recs != []
    requires forall k :: 0 <= k < |recs| ==> !IsNaN(recs[k].geo.x) && !IsNaN(recs[k].geo.y) && !IsNaN(recs[k].geo.z)
    ensures var b := BoxOf(recs).value;
      forall k :: 0 <= k < |recs| ==>
        LessEq(b.minX, recs[k].geo.x) && LessEq(recs[k].geo.x, b.maxX) &&
        LessEq(b.minY, recs[k].geo.y) && LessEq(recs[k].geo.y, b.maxY) &&
        LessEq(b.minZ, recs[k].geo.z) && LessEq(recs[k].geo.z, b.maxZ)
    ensures var b := BoxOf(recs).value;
      b.minX in Xs(recs) && b.maxX in Xs(recs) && b.minY in Ys(recs) &&
      b.maxY in Ys(recs) && b.minZ in Zs(recs) && b.maxZ in Zs(recs)
  {
    var xs, ys, zs := Xs(recs), Ys(recs), Zs(recs);
    RunMinBound(xs);
    RunMaxBound(xs);
    RunMinBound(ys);
    RunMaxBound(ys);
    RunMinBound(zs);
    RunMaxBound(zs);
    forall k | 0 <= k < |recs|
      ensures xs[k] == recs[k].geo.x && ys[k] == recs[k].geo.y && zs[k] == recs[k].geo.z
    {
    }
  }

  /** A map that declares no record fails on the final log line. */
  lemma {:induction false} EmptyMapFails(data: seq<Byte>, terrainOnly: bool)
    requires |data| >= 4 && I32(data[..4]) <= 0
    ensures MapSpec(data, terrainOnly) == Err(NoneFormatted)
  {
  }
}
