/** The vegetation table of `load_vegatation.py`, whose class is also named
    `Brush`: an `<i` record size, then records of three `<H` quantised
    coordinates, an id byte and nine attribute bytes. Each record becomes
    three lines of a list that lives on the class, so every call appends to
    whatever earlier calls left there. */
module Vegetation {
  import opened Bytes
  import opened Outcome
  import opened Reader
  import opened Text
  import Paths

  /** The `<i` record size in front of the records. */
  const HEADER_SIZE: nat := 4

  /** `<3H`, `<B` and `<9B`: what one iteration reads, whatever the header
      says the record size is. */
  const RECORD_SIZE: nat := 16

  const ATTR_COUNT: nat := 9

  /** The largest raw coordinate, and the extent it maps to: `2.0 * 1536.0`. */
  const RAW_MAX: nat := 0xFFFF
  const EXTENT: real := 3072.0

  datatype Record = Record(x: Word16, y: Word16, z: Word16, id: Byte, attrs: seq<Byte>)

  /** A line of `_lines`. The coordinate line `'%f,%f,%f,'` is kept as the
      three values it formats; the other two are their text. */
  datatype Line = CoordLine(x: real, y: real, z: real) | TextLine(chars: string)

  /** `(raw / 65535.0) * 2.0 * 1536.0`, in exact arithmetic. */
  function Dequantise(raw: Word16): (v: real)
    ensures 0.0 <= v <= EXTENT
  {
    raw as real / 65535.0 * 2.0 * 1536.0
  }

  /** The ends of the raw range map to the ends of the extent. */
  lemma {:induction false} DequantiseEnds()
    ensures Dequantise(0) == 0.0
    ensures Dequantise(RAW_MAX) == EXTENT
  {
  }

  /** A larger raw value gives a larger coordinate. */
  lemma {:induction false} DequantiseMonotone(a: Word16, b: Word16)
    requires a < b
    ensures Dequantise(a) < Dequantise(b)
  {
  }

  /** Scaling back recovers the raw value, so no two raw values share a
      coordinate. */
  lemma {:induction false} DequantiseInverse(raw: Word16)
    ensures Dequantise(raw) * 65535.0 / EXTENT == raw as real
  {
  }

  /** Lines 75-79: `per_size` must divide what follows it, and the loop runs
      `int((bytes_total - 4) / per_size - 1)` times. Dafny's `%` is zero
      exactly when Python's is, and once it is the quotient is exact. */
  function RecordCount(total: int, perSize: int): (r: Result<nat>)
    requires total >= HEADER_SIZE
    ensures perSize == 0 ==> r == Err(DivisionByZero)
    ensures perSize != 0 ==> (r.Ok? <==> (total - HEADER_SIZE) % perSize == 0)
    ensures perSize != 0 && r.Err? ==> r.error == AssertionFailed
    ensures r.Ok? && perSize > 0 && total > HEADER_SIZE ==> (r.value + 1) * perSize == total - HEADER_SIZE
    ensures r.Ok? && (perSize < 0 || total == HEADER_SIZE) ==> r.value == 0
  {
    if perSize == 0 then Err(DivisionByZero)
    else if (total - HEADER_SIZE) % perSize != 0 then Err(AssertionFailed)
    else Ok(RangeLength((total - HEADER_SIZE) / perSize - 1))
  }

  /** The bytes of one record, as `<3HB9B` lays them out. */
  function EncodeRecord(r: Record): (e: seq<Byte>)
    ensures |e| == 7 + |r.attrs|
  {
    EncodeU16(r.x) + EncodeU16(r.y) + EncodeU16(r.z) + [r.id] + r.attrs
  }

  /** One iteration (lines 81-83): three reads of 6, 1 and 9 bytes. A short
      read aborts before anything of this record is appended. */
  function RecordAt(data: seq<Byte>, pos: nat, i: nat): (r: Result<(Record, nat)>)
    ensures r.Ok? <==> pos + RECORD_SIZE <= |data|
    ensures r.Ok? ==> r.value.1 == pos + RECORD_SIZE && |r.value.0.attrs| == ATTR_COUNT
    ensures r.Err? ==> r.error == Truncated
  {
    var xyz :- Read(data, pos, 6);
    var id :- Read(data, pos + 6, 1);
    var attrs :- Read(data, pos + 7, ATTR_COUNT);
    Ok((Record(U16(xyz[..2]), U16(xyz[2..4]), U16(xyz[4..]), id[0], attrs), pos + RECORD_SIZE))
  }

  /** A record read is exactly the 16 bytes it came from. */
  lemma {:induction false} RecordSound(data: seq<Byte>, pos: nat, i: nat)
    requires RecordAt(data, pos, i).Ok?
    ensures EncodeRecord(RecordAt(data, pos, i).value.0) == data[pos..pos + RECORD_SIZE]
  {
    var s := data[pos..pos + RECORD_SIZE];
    var r := RecordAt(data, pos, i).value.0;
    U16Inverse(s[..2]);
    U16Inverse(s[2..4]);
    U16Inverse(s[4..6]);
    assert data[pos..pos + 6] == s[..6];
    assert s[..6][..2] == s[..2] && s[..6][2..4] == s[2..4] && s[..6][4..] == s[4..6];
    assert EncodeRecord(r) == s[..2] + s[2..4] + s[4..6] + [s[6]] + s[7..];
  }

  /** Reading the bytes of a record gives the record back. */
  lemma {:induction false} RecordRoundTrip(r: Record, data: seq<Byte>, pos: nat, i: nat)
    requires |r.attrs| == ATTR_COUNT
    requires pos + RECORD_SIZE <= |data| && data[pos..pos + RECORD_SIZE] == EncodeRecord(r)
    ensures RecordAt(data, pos, i) == Ok((r, pos + RECORD_SIZE))
  {
    var e := EncodeRecord(r);
    U16RoundTrip(r.x);
    U16RoundTrip(r.y);
    U16RoundTrip(r.z);
    assert data[pos..pos + 6] == e[..6];
    assert e[..6][..2] == EncodeU16(r.x) && e[..6][2..4] == EncodeU16(r.y) && e[..6][4..] == EncodeU16(r.z);
    assert e[6] == r.id;
    assert data[pos + 6] == e[6];
    assert data[pos + 6..pos + 7] == [r.id];
    assert data[pos + 7..pos + 16] == e[7..] == r.attrs;
  }

  /** `'%d,' % id`. */
  function IdText(id: Byte): string {
    Numeral(id, 10) + ","
  }

  /** `'%x,%x,%x,%x,%x,%x,%x,%x,%x\n' % datas`. */
  function AttrText(attrs: seq<Byte>): string {
    JoinFields(HexFields(attrs)) + "\n"
  }

  function HexFields(attrs: seq<Byte>): (fs: seq<string>)
    ensures |fs| == |attrs|
  {
    seq(|attrs|, k requires 0 <= k < |attrs| => Numeral(attrs[k], 16))
  }

  /** Lines 86-91: the three lines of one record. */
  function RecordLines(r: Record): seq<Line> {
    [CoordLine(Dequantise(r.x), Dequantise(r.y), Dequantise(r.z)),
     TextLine(IdText(r.id)),
     TextLine(AttrText(r.attrs))]
  }

  /** The lines of the records read, in order. */
  function LinesOf(rs: seq<Record>): (ls: seq<Line>)
    ensures |ls| == 3 * |rs|
  {
    if rs == [] then [] else LinesOf(rs[..|rs| - 1]) + RecordLines(rs[|rs| - 1])
  }

  /** The id line reads back as the id. */
  lemma {:induction false} IdTextRoundTrip(id: Byte)
    ensures var t := IdText(id);
      t[|t| - 1] == ',' && NumeralValue(t[..|t| - 1], 10) == id
  {
    var t := IdText(id);
    assert t[..|t| - 1] == Numeral(id, 10);
    NumeralRoundTrip(id, 10);
  }

  /** The attribute line ends in a newline, and splitting the rest at its
      commas gives one hexadecimal field per attribute byte, in order. */
  lemma {:induction false} AttrTextRoundTrip(attrs: seq<Byte>)
    requires |attrs| >= 1
    ensures var t := AttrText(attrs);
      t[|t| - 1] == '\n' &&
      |SplitFields(t[..|t| - 1])| == |attrs| &&
      forall k :: 0 <= k < |attrs| ==> NumeralValue(SplitFields(t[..|t| - 1])[k], 16) == attrs[k]
  {
    var t := AttrText(attrs);
    var fs := HexFields(attrs);
    forall k | 0 <= k < |fs|
      ensures ',' !in fs[k] && NumeralValue(fs[k], 16) == attrs[k]
    {
      NumeralDigits(attrs[k], 16);
      NumeralRoundTrip(attrs[k], 16);
    }
    SplitJoin(fs);
    assert t[..|t| - 1] == JoinFields(fs);
  }

  /** The three lines determine the record they came from. */
  lemma {:induction false} RecordLinesInjective(a: Record, b: Record)
    requires |a.attrs| == |b.attrs| == ATTR_COUNT
    requires RecordLines(a) == RecordLines(b)
    ensures a == b
  {
    DequantiseInverse(a.x);
    DequantiseInverse(b.x);
    DequantiseInverse(a.y);
    DequantiseInverse(b.y);
    DequantiseInverse(a.z);
    DequantiseInverse(b.z);
    IdTextRoundTrip(a.id);
    IdTextRoundTrip(b.id);
    AttrTextRoundTrip(a.attrs);
    AttrTextRoundTrip(b.attrs);
    assert IdText(a.id) == IdText(b.id);
    assert AttrText(a.attrs) == AttrText(b.attrs);
    forall k | 0 <= k < ATTR_COUNT
      ensures a.attrs[k] == b.attrs[k]
    {
    }
  }

  /** `_lines` grows by the lines of one more record. */
  lemma {:induction false} LinesSnoc(rs: seq<Record>, r: Record)
    ensures LinesOf(rs + [r]) == LinesOf(rs) + RecordLines(r)
  {
    assert (rs + [r])[..|rs|] == rs;
  }

  /** Record `k`'s lines sit at `3 * k`. */
  lemma {:induction false} LinesOfAt(rs: seq<Record>, k: nat)
    requires k < |rs|
    ensures LinesOf(rs)[3 * k..3 * k + 3] == RecordLines(rs[k])
    decreases |rs|
  {
    var n := |rs| - 1;
    if k < n {
      LinesOfAt(rs[..n], k);
      assert LinesOf(rs)[..3 * n] == LinesOf(rs[..n]);
    }
  }

  /** The whole of `parse` against `_lines` as it stood: the outcome (the
      output base name) and the list afterwards. Whatever the loop appended
      before a short read stays appended. `path` is `_brush_file`, taken as
      already normalised. */
  function ParseSpec(lines: seq<Line>, data: seq<Byte>, path: seq<Byte>): (Result<seq<Byte>>, seq<Line>)
  {
    match ReadI32(data, 0)
    case Err(e) => (Err(e), lines)
    case Ok(perSize) =>
      match RecordCount(|data|, perSize)
      case Err(e) => (Err(e), lines)
      case Ok(count) =>
        var run := Repeat(RecordAt, data, HEADER_SIZE, count);
        var after := lines + LinesOf(run.items);
        match run.end
        case Err(e) => (Err(e), after)
        case Ok(_) => (Ok(Paths.OutputBaseName(path)), after)
  }

  /** The loop over the records, on any bytes: it stops early only for want
      of a whole record, and record `j` is the one at `4 + 16 * j`. */
  lemma {:induction false} RecordRun(data: seq<Byte>, count: nat)
    requires HEADER_SIZE <= |data|
    ensures var run := Repeat(RecordAt, data, HEADER_SIZE, count);
      (run.end.Ok? <==> HEADER_SIZE + count * RECORD_SIZE <= |data|) &&
      (run.end.Err? ==> HEADER_SIZE + (|run.items| + 1) * RECORD_SIZE > |data|) &&
      forall j :: 0 <= j < |run.items| ==>
        RecordAt(data, HEADER_SIZE + j * RECORD_SIZE, j).Ok? &&
        run.items[j] == RecordAt(data, HEADER_SIZE + j * RECORD_SIZE, j).value.0
  {
    RepeatFits(RecordAt, RECORD_SIZE, data, HEADER_SIZE, count);
    RepeatFixedItems(RecordAt, RECORD_SIZE, data, HEADER_SIZE, count);
  }

  /** `parse` on any bytes and any earlier list: it appends three lines for
      each of the first `n` records, record `k` being the 16 bytes at
      `4 + 16 * k` whatever the header says; it succeeds exactly when the
      record size is accepted and all `count` records fit, and then `n` is
      `count`; and a failing call that appended anything stopped at a
      record that did not fit. */
  lemma {:induction false} ParseOutcome(lines: seq<Line>, data: seq<Byte>, path: seq<Byte>)
    ensures var (r, after) := ParseSpec(lines, data, path);
      var n := (|after| - |lines|) / 3;
      lines <= after && |after| == |lines| + 3 * n &&
      (forall k :: 0 <= k < n ==>
        RecordAt(data, HEADER_SIZE + k * RECORD_SIZE, k).Ok? &&
        after[|lines| + 3 * k..|lines| + 3 * k + 3] == RecordLines(RecordAt(data, HEADER_SIZE + k * RECORD_SIZE, k).value.0)) &&
      (r.Ok? <==> HEADER_SIZE <= |data| && RecordCount(|data|, I32(data[..4])).Ok? &&
                  HEADER_SIZE + RecordCount(|data|, I32(data[..4])).value * RECORD_SIZE <= |data|) &&
      (r.Ok? ==> r.value == Paths.OutputBaseName(path) && n == RecordCount(|data|, I32(data[..4])).value) &&
      (r.Err? && n > 0 ==> HEADER_SIZE + (n + 1) * RECORD_SIZE > |data|)
  {
    if HEADER_SIZE <= |data| && RecordCount(|data|, I32(data[..4])).Ok? {
      assert ReadI32(data, 0) == Ok(I32(data[..4])) by {
        assert data[0..4] == data[..4];
      }
      var count := RecordCount(|data|, I32(data[..4])).value;
      var run := Repeat(RecordAt, data, HEADER_SIZE, count);
      RecordRun(data, count);
      ParseSpecRun(lines, data, path, count);
      AppendedLines(lines, run.items, data);
    } else {
      assert ParseSpec(lines, data, path).1 == lines;
    }
  }

  /** Once the record size is accepted, `parse` is the loop over `count`
      records. */
  lemma {:induction false} ParseSpecRun(lines: seq<Line>, data: seq<Byte>, path: seq<Byte>, count: nat)
    requires ReadI32(data, 0).Ok? && RecordCount(|data|, ReadI32(data, 0).value) == Ok(count)
    ensures var run := Repeat(RecordAt, data, HEADER_SIZE, count);
      ParseSpec(lines, data, path) ==
        (if run.end.Ok? then Ok(Paths.OutputBaseName(path)) else Err(run.end.error), lines + LinesOf(run.items))
  {
  }

  /** Records read at their fixed offsets, appended after `lines`. */
  lemma {:induction false} AppendedLines(lines: seq<Line>, items: seq<Record>, data: seq<Byte>)
    requires forall j :: 0 <= j < |items| ==>
      RecordAt(data, HEADER_SIZE + j * RECORD_SIZE, j).Ok? &&
      items[j] == RecordAt(data, HEADER_SIZE + j * RECORD_SIZE, j).value.0
    ensures var after := lines + LinesOf(items);
      (|after| - |lines|) / 3 == |items| &&
      forall k :: 0 <= k < |items| ==>
        after[|lines| + 3 * k..|lines| + 3 * k + 3] == RecordLines(RecordAt(data, HEADER_SIZE + k * RECORD_SIZE, k).value.0)
  {
    var after := lines + LinesOf(items);
    forall k | 0 <= k < |items|
      ensures after[|lines| + 3 * k..|lines| + 3 * k + 3] == RecordLines(items[k])
    {
      LinesOfAt(items, k);
      assert after[|lines| + 3 * k..|lines| + 3 * k + 3] == LinesOf(items)[3 * k..3 * k + 3];
    }
  }

  /** A file whose header says 16 and whose records are laid out behind it:
      every record but the last is read back and turned into its lines, and
      the last 16 bytes are never read. */
  lemma {:induction false} AlignedRoundTrip(lines: seq<Line>, recs: seq<Record>, last: seq<Byte>, path: seq<Byte>)
    requires forall k :: 0 <= k < |recs| ==> |recs[k].attrs| == ATTR_COUNT
    requires |last| == RECORD_SIZE
    ensures ParseSpec(lines, EncodeI32(RECORD_SIZE) + Concat(EncodeRecord, recs) + last, path) ==
      (Ok(Paths.OutputBaseName(path)), lines + LinesOf(recs))
  {
    var body := Concat(EncodeRecord, recs);
    var data := EncodeI32(RECORD_SIZE) + body + last;
    ConcatLength(EncodeRecord, RECORD_SIZE, recs);
    AlignedBytes(body, last);
    assert RecordCount(|data|, RECORD_SIZE) == Ok(|recs|) by {
      assert |data| - HEADER_SIZE == (|recs| + 1) * RECORD_SIZE;
    }
    assert ReadsBack(RecordAt, EncodeRecord, recs) by {
      forall k, d: seq<Byte>, p: nat, i: nat | 0 <= k < |recs|
        ensures ReadsBackAt(RecordAt, EncodeRecord, recs[k], d, p, i)
      {
        if p + RECORD_SIZE <= |d| && d[p..p + RECORD_SIZE] == EncodeRecord(recs[k]) {
          RecordRoundTrip(recs[k], d, p, i);
        }
      }
    }
    ReadsBackDecodesAll(RecordAt, EncodeRecord, recs, data, HEADER_SIZE);
    RepeatReadsAll(RecordAt, EncodeRecord, recs, data, HEADER_SIZE);
  }

  /** The header reads back as 16 and the records sit right behind it. */
  lemma {:induction false} AlignedBytes(body: seq<Byte>, last: seq<Byte>)
    ensures var data := EncodeI32(RECORD_SIZE) + body + last;
      ReadI32(data, 0) == Ok(RECORD_SIZE as int) &&
      HEADER_SIZE + |body| <= |data| && data[HEADER_SIZE..HEADER_SIZE + |body|] == body
  {
    var data := EncodeI32(RECORD_SIZE) + body + last;
    I32RoundTrip(RECORD_SIZE);
    assert data[..4] == EncodeI32(RECORD_SIZE);
    assert data[0..4] == data[..4];
    assert data[HEADER_SIZE..HEADER_SIZE + |body|] == body;
  }

  /** The class attribute `_lines`: one list every instance shares. */
  class VegetationLines {
    var lines: seq<Line>

    /** The list as the class body creates it; `__init__` adds nothing. */
    constructor()
      ensures lines == []
    {
      lines := [];
    }

    /** `Brush.parse` on the file's bytes (lines 70-99). */
    method Parse(data: seq<Byte>, path: seq<Byte>) returns (r: Result<seq<Byte>>)
      modifies this
      ensures (r, lines) == ParseSpec(old(lines), data, path)
    {
      var perSize :- ReadI32(data, 0);
      var count :- RecordCount(|data|, perSize);
      var pos: nat := HEADER_SIZE;
      ghost var items: seq<Record> := [];
      var i: nat := 0;
      while i < count
        invariant i <= count
        invariant Repeat(RecordAt, data, HEADER_SIZE, i) == Run(items, Ok(pos))
        invariant lines == old(lines) + LinesOf(items)
        decreases count - i
      {
        var step := RecordAt(data, pos, i);
        if step.Err? {
          RepeatFailsAt(RecordAt, data, HEADER_SIZE, i, items, pos, count);
          return Err(step.error);
        }
        var (rec, next) := step.value;
        lines := lines + RecordLines(rec);
        LinesSnoc(items, rec);
        RepeatStep(RecordAt, data, HEADER_SIZE, i, items, pos, rec, next);
        items := items + [rec];
        pos := next;
        i := i + 1;
      }
      r := Ok(Paths.OutputBaseName(path));
    }
  }
}
