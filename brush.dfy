/** The brush table of `load_brush.Brush.parse`: a 15-byte header whose last
    field counts the first segment, then three count-prefixed segments.
    The first holds length-prefixed strings, the second length-prefixed
    entries of a 128-byte model file name, a type and a bounding box, the
    third 88-byte placement records that refer to the file names by index.
    The parsed rows go to four lists that live on the class, so they are
    shared by every `Brush` and keep whatever earlier calls put there. */
module Brush {
  import opened Bytes
  import opened Outcome
  import opened Reader
  import Paths

  const NUL: Byte := 0

  /** `<3siii`: the signature, two unused words and the first count. */
  const HEADER_SIZE: nat := 15

  /** A string of the first segment. Its length prefix counts itself and a
      terminator, so the string is shorter than the largest `<i` by five. */
  type Unk1String = s: seq<Byte> | |s| < 0x7FFF_FFFB

  /** A model file name cut out of a 128-byte field. */
  type FileName = s: seq<Byte> | |s| < 128

  /** A second-segment entry: the file name, the type word `t` and the six
      bounding-box floats `f1`..`f6`, carried as bit patterns. */
  datatype Meta = Meta(fileName: FileName, kind: Int32, bounds: seq<Word32>)

  /** The 28 fields of `<iii4B4Bi12f4i`. The third of `ids` indexes the file
      name table. */
  datatype Instance = Instance(ids: seq<Int32>, colourA: seq<Byte>, colourB: seq<Byte>,
                               flag: Int32, floats: seq<Word32>, extra: seq<Int32>)

  /** A placement record with the file name its index picked. */
  datatype Placed = Placed(name: seq<Byte>, inst: Instance)

  /** A line of `_lines`: the column titles `__init__` adds, or row `number`. */
  datatype MetaLine = MetaTitle | MetaRow(number: int, meta: Meta)

  /** A line of `_line2s`. */
  datatype InstanceLine = InstanceTitle | InstanceRow(number: int, placed: Placed)

  /** The four class-level lists `_unk1_s`, `_cgf_filenames`, `_lines` and
      `_line2s`. */
  datatype Tables = Tables(unk1s: seq<seq<Byte>>, cgfFilenames: seq<seq<Byte>>,
                           lines: seq<MetaLine>, line2s: seq<InstanceLine>)

  /** What a finished call yields: the base name of the two CSV files and
      whether the cursor reached the end of the file (the last log line
      only; left-over bytes are never an error). */
  datatype Parsed = Parsed(outputName: seq<Byte>, allParsed: bool)

  /** `seg[:seg.find(0)]`: the bytes before the first NUL. Without a NUL,
      `find` gives -1 and the slice drops the last byte. */
  function TrimNul(seg: seq<Byte>): (r: seq<Byte>)
    ensures r <= seg
    ensures NUL !in r
    ensures NUL in seg ==> |r| < |seg| && seg[|r|] == NUL
    ensures NUL !in seg ==> |r| == if seg == [] then 0 else |seg| - 1
  {
    match Paths.Find(seg, NUL, 0)
    case Some(idx) => seg[..idx]
    case None => if seg == [] then [] else seg[..|seg| - 1]
  }

  /** A string followed by a terminator and any padding trims back to the
      string. */
  lemma {:induction false} TrimNulPadded(s: seq<Byte>, rest: seq<Byte>)
    requires NUL !in s
    ensures TrimNul(s + [NUL] + rest) == s
  {
    var seg := s + [NUL] + rest;
    assert seg[|s|] == NUL;
    assert TrimNul(seg) == seg[..|s|];
  }

  /** `xs[idx]` on a Python list: a negative index counts from the end. */
  function PyIndex<T>(xs: seq<T>, idx: int): (r: Result<T>)
    ensures r.Ok? <==> -|xs| <= idx < |xs|
    ensures r.Ok? && idx >= 0 ==> r.value == xs[idx]
    ensures r.Ok? && idx < 0 ==> r.value == xs[|xs| + idx]
    ensures r.Err? ==> r.error == IndexOutOfRange
  {
    if 0 <= idx < |xs| then Ok(xs[idx])
    else if -|xs| <= idx < 0 then Ok(xs[|xs| + idx])
    else Err(IndexOutOfRange)
  }

  /** One first-segment entry (lines 81-84): `<i` length `sl` counting
      itself, then `sl - 4` bytes, trimmed at the NUL and decoded. A length
      below 4 makes the format `'<%ds'` malformed. */
  function NameAt(data: seq<Byte>, pos: nat, i: nat): (r: Result<(Unk1String, nat)>)
    ensures r.Ok? ==> pos + 4 <= |data| && pos + 4 <= r.value.1 == pos + I32(data[pos..pos + 4]) <= |data|
    ensures r.Ok? ==> r.value.0 == TrimNul(data[pos + 4..r.value.1]) && ValidUtf8(r.value.0)
    ensures pos + 4 <= |data| && I32(data[pos..pos + 4]) < 4 ==> r == Err(BadFormat)
  {
    var sl :- ReadI32(data, pos);
    if sl < 4 then Err(BadFormat)
    else
      var seg :- Read(data, pos + 4, sl - 4);
      var s := TrimNul(seg);
      if !ValidUtf8(s) then Err(InvalidUtf8) else Ok((s, pos + sl))
  }

  /** One second-segment entry (lines 90-99): `<i` length `sl`, then
      `'<128s%ds'` reads a 128-byte name field and `sl - 132` more bytes,
      of which `<iffffff` reads the first 28. The name is decoded after
      that read. */
  function MetaAt(data: seq<Byte>, pos: nat, i: nat): (r: Result<(Meta, nat)>)
    ensures r.Ok? ==> pos + 4 <= |data| && I32(data[pos..pos + 4]) >= 160
    ensures r.Ok? ==> r.value.1 == pos + I32(data[pos..pos + 4]) <= |data|
    ensures r.Ok? ==> var m := r.value.0;
      m.fileName == TrimNul(data[pos + 4..pos + 132]) && ValidUtf8(m.fileName) &&
      m.kind == I32(data[pos + 132..pos + 136]) && m.bounds == DecodeWords(data[pos + 136..pos + 160])
    ensures pos + 4 <= |data| && I32(data[pos..pos + 4]) < 132 ==> r == Err(BadFormat)
    ensures pos + 4 <= |data| && 132 <= I32(data[pos..pos + 4]) < 160 ==> r == Err(Truncated)
  {
    var sl :- ReadI32(data, pos);
    if sl < 132 then Err(BadFormat)
    else if pos + sl > |data| then Err(Truncated)
    else if sl < 160 then Err(Truncated)
    else
      var fileName := TrimNul(data[pos + 4..pos + 132]);
      if !ValidUtf8(fileName) then Err(InvalidUtf8)
      else Ok((Meta(fileName, I32(data[pos + 132..pos + 136]), DecodeWords(data[pos + 136..pos + 160])), pos + sl))
  }

  /** `<iii4B4Bi12f4i` over one 88-byte record. */
  function DecodeInstance(seg: seq<Byte>): (x: Instance)
    requires |seg| == 88
  {
    Instance(Signeds(DecodeWords(seg[..12])), seg[12..16], seg[16..20], I32(seg[20..24]),
             DecodeWords(seg[24..72]), Signeds(DecodeWords(seg[72..])))
  }

  function Signeds(ws: seq<Word32>): (vs: seq<Int32>)
    ensures |vs| == |ws|
  {
    seq(|ws|, k requires 0 <= k < |ws| => Signed(ws[k]))
  }

  function Unsigneds(vs: seq<Int32>): (ws: seq<Word32>)
    ensures |ws| == |vs|
  {
    seq(|vs|, k requires 0 <= k < |vs| => Unsigned32(vs[k]))
  }

  /** One third-segment entry (lines 106-111): 88 bytes, and the file name
      the third field picks out of the table. */
  function InstanceAt(names: seq<seq<Byte>>, data: seq<Byte>, pos: nat, i: nat): (r: Result<(Placed, nat)>)
    ensures r.Ok? ==> r.value.1 == pos + 88 <= |data| && r.value.0.inst == DecodeInstance(data[pos..pos + 88])
    ensures pos + 88 <= |data| ==> var idx := I32(data[pos + 8..pos + 12]);
      (r.Ok? <==> -|names| <= idx < |names|) &&
      (r.Ok? ==> r.value.0.name == names[if idx < 0 then |names| + idx else idx]) &&
      (r.Err? ==> r.error == IndexOutOfRange)
  {
    var seg :- Read(data, pos, 88);
    var x := DecodeInstance(seg);
    assert x.ids[2] == I32(data[pos + 8..pos + 12]) by {
      assert seg == data[pos..pos + 88];
      assert seg[..12][8..12] == seg[8..12] == data[pos + 8..pos + 12];
    }
    var name :- PyIndex(names, x.ids[2]);
    Ok((Placed(name, x), pos + 88))
  }

  function InstanceEntry(names: seq<seq<Byte>>): (seq<Byte>, nat, nat) -> Result<(Placed, nat)> {
    (d, p, i) => InstanceAt(names, d, p, i)
  }

  function FileNames(ms: seq<Meta>): (r: seq<seq<Byte>>)
    ensures |r| == |ms|
  {
    if ms == [] then [] else FileNames(ms[..|ms| - 1]) + [ms[|ms| - 1].fileName]
  }

  /** The rows of one call, numbered from 1 (line 101). */
  function MetaLines(ms: seq<Meta>): (r: seq<MetaLine>)
    ensures |r| == |ms|
  {
    if ms == [] then [] else MetaLines(ms[..|ms| - 1]) + [MetaRow(|ms|, ms[|ms| - 1])]
  }

  /** Line 111. */
  function InstanceLines(ps: seq<Placed>): (r: seq<InstanceLine>)
    ensures |r| == |ps|
  {
    if ps == [] then [] else InstanceLines(ps[..|ps| - 1]) + [InstanceRow(|ps|, ps[|ps| - 1])]
  }

  /** One more entry adds one file name and the next row. */
  lemma {:induction false} RowsSnoc(ms: seq<Meta>, m: Meta)
    ensures FileNames(ms + [m]) == FileNames(ms) + [m.fileName]
    ensures MetaLines(ms + [m]) == MetaLines(ms) + [MetaRow(|ms| + 1, m)]
  {
    assert (ms + [m])[..|ms|] == ms;
  }

  lemma {:induction false} PlacedSnoc(ps: seq<Placed>, p: Placed)
    ensures InstanceLines(ps + [p]) == InstanceLines(ps) + [InstanceRow(|ps| + 1, p)]
  {
    assert (ps + [p])[..|ps|] == ps;
  }

  /** The whole of `parse` against the lists `t` as they stood: the outcome
      and the lists afterwards. Whatever a segment appended before an error
      stays appended. `path` is `_brush_file`, taken as already normalised. */
  function ParseSpec(t: Tables, data: seq<Byte>, path: seq<Byte>): (Result<Parsed>, Tables)
  {
    match Read(data, 0, HEADER_SIZE)
    case Err(e) => (Err(e), t)
    case Ok(header) =>
      var names := Repeat(NameAt, data, HEADER_SIZE, RangeLength(I32(header[11..])));
      var t1 := t.(unk1s := t.unk1s + names.items);
      match names.end
      case Err(e) => (Err(e), t1)
      case Ok(pos) => MetaSpec(t1, data, pos, path)
  }

  /** From the second count on (lines 87-101). */
  function MetaSpec(t: Tables, data: seq<Byte>, pos: nat, path: seq<Byte>): (Result<Parsed>, Tables)
  {
    match ReadI32(data, pos)
    case Err(e) => (Err(e), t)
    case Ok(count) =>
      var metas := Repeat(MetaAt, data, pos + 4, RangeLength(count));
      var t2 := t.(cgfFilenames := t.cgfFilenames + FileNames(metas.items), lines := t.lines + MetaLines(metas.items));
      match metas.end
      case Err(e) => (Err(e), t2)
      case Ok(next) => InstanceSpec(t2, data, next, path)
  }

  /** From the third count on (lines 103-125). */
  function InstanceSpec(t: Tables, data: seq<Byte>, pos: nat, path: seq<Byte>): (Result<Parsed>, Tables)
  {
    match ReadI32(data, pos)
    case Err(e) => (Err(e), t)
    case Ok(count) =>
      var placed := Repeat(InstanceEntry(t.cgfFilenames), data, pos + 4, RangeLength(count));
      var t3 := t.(line2s := t.line2s + InstanceLines(placed.items));
      match placed.end
      case Err(e) => (Err(e), t3)
      case Ok(end) => (Ok(Parsed(Paths.OutputBaseName(path), end == |data|)), t3)
  }

  /** What one call leaves in the shared lists, whatever the file holds:
      every list only grows; `_cgf_filenames` and `_lines` grow by the same
      number of entries, the new rows numbered from 1 and each carrying the
      file name appended with it; and the new `_line2s` rows are numbered
      from 1 and name an entry of the file-name table. */
  predicate Grows(t: Tables, u: Tables) {
    t.unk1s <= u.unk1s && t.cgfFilenames <= u.cgfFilenames && t.lines <= u.lines && t.line2s <= u.line2s &&
    |u.cgfFilenames| - |t.cgfFilenames| == |u.lines| - |t.lines| &&
    (forall j :: |t.lines| <= j < |u.lines| ==>
      u.lines[j].MetaRow? && u.lines[j].number == j - |t.lines| + 1 &&
      u.lines[j].meta.fileName == u.cgfFilenames[|t.cgfFilenames| + j - |t.lines|]) &&
    (forall j :: |t.line2s| <= j < |u.line2s| ==>
      u.line2s[j].InstanceRow? && u.line2s[j].number == j - |t.line2s| + 1 &&
      u.line2s[j].placed.name in u.cgfFilenames)
  }

  lemma {:induction false} MetaLinesAt(ms: seq<Meta>, k: nat)
    requires k < |ms|
    ensures MetaLines(ms)[k] == MetaRow(k + 1, ms[k])
    ensures FileNames(ms)[k] == ms[k].fileName
    decreases |ms|
  {
    if k < |ms| - 1 {
      MetaLinesAt(ms[..|ms| - 1], k);
    }
  }

  lemma {:induction false} InstanceLinesAt(ps: seq<Placed>, k: nat)
    requires k < |ps|
    ensures InstanceLines(ps)[k] == InstanceRow(k + 1, ps[k])
    decreases |ps|
  {
    if k < |ps| - 1 {
      InstanceLinesAt(ps[..|ps| - 1], k);
    }
  }

  /** The third segment appends rows to `_line2s` only, each naming an
      entry of the table as it stood. */
  lemma {:induction false} InstanceGrowth(t: Tables, data: seq<Byte>, pos: nat, path: seq<Byte>)
    ensures var u := InstanceSpec(t, data, pos, path).1;
      Grows(t, u) && u.unk1s == t.unk1s && u.cgfFilenames == t.cgfFilenames && u.lines == t.lines
  {
    var u := InstanceSpec(t, data, pos, path).1;
    if ReadI32(data, pos).Ok? {
      var entry := InstanceEntry(t.cgfFilenames);
      var placed := Repeat(entry, data, pos + 4, RangeLength(ReadI32(data, pos).value));
      assert u.line2s == t.line2s + InstanceLines(placed.items);
      RepeatItems(entry, (p: Placed) => p.name in t.cgfFilenames, data, pos + 4, RangeLength(ReadI32(data, pos).value));
      forall j | |t.line2s| <= j < |u.line2s|
        ensures u.line2s[j] == InstanceRow(j - |t.line2s| + 1, placed.items[j - |t.line2s|])
      {
        InstanceLinesAt(placed.items, j - |t.line2s|);
      }
    }
  }

  /** One call's second-segment entries, appended to the two lists. */
  lemma {:induction false} MetaRowsGrow(t: Tables, ms: seq<Meta>)
    ensures Grows(t, t.(cgfFilenames := t.cgfFilenames + FileNames(ms), lines := t.lines + MetaLines(ms)))
  {
    var u := t.(cgfFilenames := t.cgfFilenames + FileNames(ms), lines := t.lines + MetaLines(ms));
    forall j | |t.lines| <= j < |u.lines|
      ensures u.lines[j] == MetaRow(j - |t.lines| + 1, ms[j - |t.lines|])
      ensures u.cgfFilenames[|t.cgfFilenames| + j - |t.lines|] == ms[j - |t.lines|].fileName
    {
      MetaLinesAt(ms, j - |t.lines|);
    }
  }

  /** A step that adds file names and rows, then one that adds only
      `_line2s` rows. */
  lemma {:induction false} GrowsJoin(t: Tables, m: Tables, u: Tables)
    requires Grows(t, m) && Grows(m, u)
    requires m.unk1s == u.unk1s && m.cgfFilenames == u.cgfFilenames && m.lines == u.lines && t.line2s == m.line2s
    ensures Grows(t, u)
  {
  }

  /** The second and third segments. */
  lemma {:induction false} MetaGrowth(t: Tables, data: seq<Byte>, pos: nat, path: seq<Byte>)
    ensures var u := MetaSpec(t, data, pos, path).1;
      Grows(t, u) && u.unk1s == t.unk1s
  {
    if ReadI32(data, pos).Ok? {
      var metas := Repeat(MetaAt, data, pos + 4, RangeLength(ReadI32(data, pos).value));
      var t2 := t.(cgfFilenames := t.cgfFilenames + FileNames(metas.items), lines := t.lines + MetaLines(metas.items));
      MetaRowsGrow(t, metas.items);
      if metas.end.Ok? {
        InstanceGrowth(t2, data, metas.end.value, path);
        GrowsJoin(t, t2, MetaSpec(t, data, pos, path).1);
      }
    }
  }

  /** `parse` as a whole, on any bytes and any earlier lists. */
  lemma {:induction false} ParseGrowth(t: Tables, data: seq<Byte>, path: seq<Byte>)
    ensures Grows(t, ParseSpec(t, data, path).1)
  {
    if Read(data, 0, HEADER_SIZE).Ok? {
      var header := Read(data, 0, HEADER_SIZE).value;
      var names := Repeat(NameAt, data, HEADER_SIZE, RangeLength(I32(header[11..])));
      var t1 := t.(unk1s := t.unk1s + names.items);
      if names.end.Ok? {
        MetaGrowth(t1, data, names.end.value, path);
        NamesFirst(t, names.items, MetaSpec(t1, data, names.end.value, path).1);
      }
    }
  }

  /** The header names, then everything after them. */
  lemma {:induction false} NamesFirst(t: Tables, names: seq<seq<Byte>>, u: Tables)
    requires Grows(t.(unk1s := t.unk1s + names), u)
    ensures Grows(t, u)
  {
  }

  /** The class attributes of `Brush`: one object for the lists every
      instance shares. */
  class BrushTables {
    var unk1s: seq<seq<Byte>>
    var cgfFilenames: seq<seq<Byte>>
    var lines: seq<MetaLine>
    var line2s: seq<InstanceLine>

    function State(): Tables
      reads this
    {
      Tables(unk1s, cgfFilenames, lines, line2s)
    }

    /** The lists as the class body creates them. */
    constructor()
      ensures State() == Tables([], [], [], [])
    {
      unk1s, cgfFilenames, lines, line2s := [], [], [], [];
    }

    /** `Brush.__init__`: each new instance appends the column titles. */
    method Init()
      modifies this
      ensures State() == old(State()).(lines := old(lines) + [MetaTitle], line2s := old(line2s) + [InstanceTitle])
    {
      lines := lines + [MetaTitle];
      line2s := line2s + [InstanceTitle];
    }

    /** `Brush.parse` on the file's bytes. */
    method Parse(data: seq<Byte>, path: seq<Byte>) returns (r: Result<Parsed>)
      modifies this
      ensures (r, State()) == ParseSpec(old(State()), data, path)
    {
      var header :- Read(data, 0, HEADER_SIZE);
      var end := ReadNames(data, I32(header[11..]));
      if end.Err? {
        return Err(end.error);
      }
      r := ParseMetas(data, end.value, path);
    }

    /** Lines 87-125. */
    method ParseMetas(data: seq<Byte>, pos: nat, path: seq<Byte>) returns (r: Result<Parsed>)
      modifies this
      ensures (r, State()) == MetaSpec(old(State()), data, pos, path)
    {
      var count :- ReadI32(data, pos);
      var end := ReadMetas(data, pos + 4, count);
      if end.Err? {
        return Err(end.error);
      }
      r := ParseInstances(data, end.value, path);
    }

    /** Lines 103-125. */
    method ParseInstances(data: seq<Byte>, pos: nat, path: seq<Byte>) returns (r: Result<Parsed>)
      modifies this
      ensures (r, State()) == InstanceSpec(old(State()), data, pos, path)
    {
      var count :- ReadI32(data, pos);
      var end := ReadInstances(data, pos + 4, count);
      if end.Err? {
        return Err(end.error);
      }
      r := Ok(Parsed(Paths.OutputBaseName(path), end.value == |data|));
    }

    /** The first loop (lines 80-85). The strings are gathered locally and
        appended to the shared list when the loop ends, normally or not. */
    method ReadNames(data: seq<Byte>, count: int) returns (end: Result<nat>)
      modifies this
      ensures unk1s == old(unk1s) + Repeat(NameAt, data, HEADER_SIZE, RangeLength(count)).items
      ensures end == Repeat(NameAt, data, HEADER_SIZE, RangeLength(count)).end
      ensures cgfFilenames == old(cgfFilenames) && lines == old(lines) && line2s == old(line2s)
    {
      var items: seq<Unk1String>;
      items, end := NameLoop(data, count);
      unk1s := unk1s + items;
    }
    /** The second loop (lines 89-101). */
    method ReadMetas(data: seq<Byte>, pos0: nat, count: int) returns (end: Result<nat>)
      modifies this
      ensures cgfFilenames == old(cgfFilenames) + FileNames(Repeat(MetaAt, data, pos0, RangeLength(count)).items)
      ensures lines == old(lines) + MetaLines(Repeat(MetaAt, data, pos0, RangeLength(count)).items)
      ensures end == Repeat(MetaAt, data, pos0, RangeLength(count)).end
      ensures unk1s == old(unk1s) && line2s == old(line2s)
    {
      var names, rows;
      names, rows, end := MetaLoop(data, pos0, count);
      cgfFilenames := cgfFilenames + names;
      lines := lines + rows;
    }

    /** The third loop (lines 105-112). The names it looks up are the whole
        table, earlier calls' entries included. */
    method ReadInstances(data: seq<Byte>, pos0: nat, count: int) returns (end: Result<nat>)
      modifies this
      ensures line2s == old(line2s) + InstanceLines(Repeat(InstanceEntry(cgfFilenames), data, pos0, RangeLength(count)).items)
      ensures end == Repeat(InstanceEntry(cgfFilenames), data, pos0, RangeLength(count)).end
      ensures unk1s == old(unk1s) && cgfFilenames == old(cgfFilenames) && lines == old(lines)
    {
      var rows;
      rows, end := InstanceLoop(cgfFilenames, data, pos0, count);
      line2s := line2s + rows;
    }
  }

  /** The loop of lines 80-85 over the cursor. */
  method NameLoop(data: seq<Byte>, count: int) returns (items: seq<Unk1String>, end: Result<nat>)
    ensures Repeat(NameAt, data, HEADER_SIZE, RangeLength(count)) == Run(items, end)
  {
    var pos: nat := HEADER_SIZE;
    items := [];
    var i: nat := 0;
    while i < count
      invariant i <= RangeLength(count)
      invariant Repeat(NameAt, data, HEADER_SIZE, i) == Run(items, Ok(pos))
      decreases count - i
    {
      var step := NameAt(data, pos, i);
      if step.Err? {
        RepeatFailsAt(NameAt, data, HEADER_SIZE, i, items, pos, RangeLength(count));
        return items, Err(step.error);
      }
      var (s, next) := step.value;
      RepeatStep(NameAt, data, HEADER_SIZE, i, items, pos, s, next);
      items := items + [s];
      pos := next;
      i := i + 1;
      assert Repeat(NameAt, data, HEADER_SIZE, i) == Run(items, Ok(pos));
    }
    assert i == RangeLength(count);
    end := Ok(pos);
  }

  /** The loop of lines 89-101: each entry adds its file name and its
      numbered row. */
  method MetaLoop(data: seq<Byte>, pos0: nat, count: int) returns (names: seq<seq<Byte>>, rows: seq<MetaLine>, end: Result<nat>)
    ensures var run := Repeat(MetaAt, data, pos0, RangeLength(count));
      names == FileNames(run.items) && rows == MetaLines(run.items) && end == run.end
  {
    var pos := pos0;
    ghost var items: seq<Meta> := [];
    names, rows := [], [];
    var i: nat := 0;
    while i < count
      invariant i <= RangeLength(count)
      invariant Repeat(MetaAt, data, pos0, i) == Run(items, Ok(pos))
      invariant names == FileNames(items) && rows == MetaLines(items)
      decreases count - i
    {
      var step := MetaAt(data, pos, i);
      if step.Err? {
        RepeatFailsAt(MetaAt, data, pos0, i, items, pos, RangeLength(count));
        return names, rows, Err(step.error);
      }
      var (m, next) := step.value;
      names := names + [m.fileName];
      rows := rows + [MetaRow(i + 1, m)];
      assert |items| == i;
      RowsSnoc(items, m);
      RepeatStep(MetaAt, data, pos0, i, items, pos, m, next);
      items := items + [m];
      pos := next;
      i := i + 1;
      assert Repeat(MetaAt, data, pos0, i) == Run(items, Ok(pos));
    }
    assert i == RangeLength(count);
    end := Ok(pos);
  }

  /** The loop of lines 105-112: one numbered row per record. */
  method InstanceLoop(table: seq<seq<Byte>>, data: seq<Byte>, pos0: nat, count: int) returns (rows: seq<InstanceLine>, end: Result<nat>)
    ensures var run := Repeat(InstanceEntry(table), data, pos0, RangeLength(count));
      rows == InstanceLines(run.items) && end == run.end
  {
    var entry := InstanceEntry(table);
    var pos := pos0;
    ghost var items: seq<Placed> := [];
    rows := [];
    var i: nat := 0;
    while i < count
      invariant i <= RangeLength(count)
      invariant Repeat(entry, data, pos0, i) == Run(items, Ok(pos))
      invariant rows == InstanceLines(items)
      decreases count - i
    {
      var step := InstanceAt(table, data, pos, i);
      if step.Err? {
        RepeatFailsAt(entry, data, pos0, i, items, pos, RangeLength(count));
        return rows, Err(step.error);
      }
      var (p, next) := step.value;
      rows := rows + [InstanceRow(i + 1, p)];
      assert |items| == i;
      PlacedSnoc(items, p);
      RepeatStep(entry, data, pos0, i, items, pos, p, next);
      items := items + [p];
      pos := next;
      i := i + 1;
      assert Repeat(entry, data, pos0, i) == Run(items, Ok(pos));
    }
    assert i == RangeLength(count);
    end := Ok(pos);
  }

  // ---------------------------------------------------------------------
  // Writing a table, and reading it back

  predicate GoodName(s: seq<Byte>) {
    NUL !in s && ValidUtf8(s)
  }

  predicate GoodMeta(m: Meta) {
    GoodName(m.fileName) && |m.bounds| == 6
  }

  predicate WellFormed(x: Instance) {
    |x.ids| == 3 && |x.colourA| == 4 && |x.colourB| == 4 && |x.floats| == 12 && |x.extra| == 4
  }

  /** A first-segment entry: the length, the string and its terminator. */
  function EncodeName(s: Unk1String): (e: seq<Byte>)
    ensures |e| == |s| + 5
  {
    EncodeI32(|s| + 5) + s + [NUL]
  }

  /** 160 as `<i`: an entry with exactly the 28 bytes `<iffffff` reads. */
  const META_SIZE: seq<Byte> := [0xA0, 0, 0, 0]

  function Zeros(n: nat): (z: seq<Byte>)
    ensures |z| == n && forall k :: 0 <= k < n ==> z[k] == NUL
  {
    seq(n, _ => NUL)
  }

  /** A second-segment entry with the name NUL-padded to 128 bytes. */
  function EncodeMeta(m: Meta): (e: seq<Byte>)
    ensures |e| == 136 + 4 * |m.bounds|
  {
    META_SIZE + m.fileName + Zeros(128 - |m.fileName|) + EncodeI32(m.kind) + EncodeWords(m.bounds)
  }

  function EncodeInstance(x: Instance): (e: seq<Byte>)
  {
    EncodeWords(Unsigneds(x.ids)) + x.colourA + x.colourB + EncodeI32(x.flag) +
    EncodeWords(x.floats) + EncodeWords(Unsigneds(x.extra))
  }

  /** A placement record holds only its fields; the name is looked up. */
  function EncodePlaced(p: Placed): seq<Byte> {
    EncodeInstance(p.inst)
  }

  /** A whole file: `head` stands for the signature and the two unused
      words. */
  function EncodeBrush(head: seq<Byte>, names: seq<Unk1String>, metas: seq<Meta>, placed: seq<Placed>): seq<Byte>
    requires |names| < TWO_31 && |metas| < TWO_31 && |placed| < TWO_31
  {
    head + Counted(EncodeName, names) + Counted(EncodeMeta, metas) + Counted(EncodePlaced, placed)
  }

  lemma {:induction false} SignedsUnsigneds(vs: seq<Int32>)
    ensures Signeds(Unsigneds(vs)) == vs
  {
    forall k | 0 <= k < |vs|
      ensures Signeds(Unsigneds(vs))[k] == vs[k]
    {
      SignedUnsigned(vs[k]);
    }
  }

  lemma {:induction false} UnsignedsSigneds(ws: seq<Word32>)
    ensures Unsigneds(Signeds(ws)) == ws
  {
    assert forall k :: 0 <= k < |ws| ==> Unsigneds(Signeds(ws))[k] == ws[k];
  }

  /** The 28 fields survive a write and a read. */
  lemma {:induction false} InstanceBytesRoundTrip(x: Instance)
    requires WellFormed(x)
    ensures |EncodeInstance(x)| == 88 && DecodeInstance(EncodeInstance(x)) == x
  {
    var a, d, w, z := EncodeWords(Unsigneds(x.ids)), EncodeI32(x.flag), EncodeWords(x.floats), EncodeWords(Unsigneds(x.extra));
    var e := EncodeInstance(x);
    assert e[..12] == a && e[12..16] == x.colourA && e[16..20] == x.colourB;
    assert e[20..24] == d && e[24..72] == w && e[72..] == z;
    WordsRoundTrip(Unsigneds(x.ids));
    WordsRoundTrip(x.floats);
    WordsRoundTrip(Unsigneds(x.extra));
    SignedsUnsigneds(x.ids);
    SignedsUnsigneds(x.extra);
    I32RoundTrip(x.flag);
  }

  /** Every 88-byte record is the encoding of the fields read from it. */
  lemma {:induction false} InstanceBytesSound(seg: seq<Byte>)
    requires |seg| == 88
    ensures WellFormed(DecodeInstance(seg)) && EncodeInstance(DecodeInstance(seg)) == seg
  {
    UnsignedsSigneds(DecodeWords(seg[..12]));
    UnsignedsSigneds(DecodeWords(seg[72..]));
    WordsInverse(seg[..12]);
    WordsInverse(seg[24..72]);
    WordsInverse(seg[72..]);
    I32Inverse(seg[20..24]);
    assert seg == seg[..12] + seg[12..16] + seg[16..20] + seg[20..24] + seg[24..72] + seg[72..];
  }

  lemma {:induction false} I32Of160()
    ensures I32(META_SIZE) == 160
  {
    assert META_SIZE[..2] == [0xA0, 0] && META_SIZE[2..] == [0, 0];
  }

  /** The four pieces of a concatenation, by position. */
  lemma {:induction false} Parts(a: seq<Byte>, b: seq<Byte>, c: seq<Byte>, d: seq<Byte>)
    ensures var e := a + b + c + d;
      e[..|a|] == a && e[|a|..|a| + |b|] == b &&
      e[|a| + |b|..|a| + |b| + |c|] == c && e[|a| + |b| + |c|..] == d
  {
  }

  /** Where the fields of an encoded second-segment entry sit. */
  lemma {:induction false} MetaLayout(m: Meta)
    requires GoodMeta(m)
    ensures var e := EncodeMeta(m);
      |e| == 160 && e[..4] == META_SIZE && e[4..132] == m.fileName + [NUL] + Zeros(127 - |m.fileName|) &&
      e[132..136] == EncodeI32(m.kind) && e[136..160] == EncodeWords(m.bounds)
  {
    var f := m.fileName;
    var mid := f + Zeros(128 - |f|);
    assert EncodeMeta(m) == META_SIZE + mid + EncodeI32(m.kind) + EncodeWords(m.bounds);
    Parts(META_SIZE, mid, EncodeI32(m.kind), EncodeWords(m.bounds));
    assert Zeros(128 - |f|) == [NUL] + Zeros(127 - |f|);
  }

  /** The two reads of an encoded name: its length word and its bytes. */
  lemma {:induction false} NameReads(s: Unk1String, data: seq<Byte>, pos: nat)
    requires pos + |EncodeName(s)| <= |data| && data[pos..pos + |EncodeName(s)|] == EncodeName(s)
    ensures ReadI32(data, pos) == Ok(|s| + 5)
    ensures Read(data, pos + 4, |s| + 1) == Ok(s + [NUL])
  {
    var tail := s + [NUL];
    assert EncodeName(s) == EncodeI32(|s| + 5) + tail;
    SliceSplit(data, pos, EncodeI32(|s| + 5), tail);
    ReadI32RoundTrip(|s| + 5, data, pos);
  }

  lemma {:induction false} NameRoundTrip(s: Unk1String, data: seq<Byte>, pos: nat, i: nat)
    requires GoodName(s)
    requires pos + |EncodeName(s)| <= |data| && data[pos..pos + |EncodeName(s)|] == EncodeName(s)
    ensures NameAt(data, pos, i) == Ok((s, pos + |EncodeName(s)|))
  {
    NameReads(s, data, pos);
    TrimNulPadded(s, []);
    assert s + [NUL] + [] == s + [NUL];
    NameAtOk(data, pos, i, |s| + 5, s + [NUL], s);
  }

  /** A name entry whose two reads succeed and whose trimmed bytes decode. */
  lemma {:induction false} NameAtOk(data: seq<Byte>, pos: nat, i: nat, sl: int, seg: seq<Byte>, s: Unk1String)
    requires sl >= 4 && ReadI32(data, pos) == Ok(sl) && Read(data, pos + 4, sl - 4) == Ok(seg)
    requires TrimNul(seg) == s && ValidUtf8(s)
    ensures NameAt(data, pos, i) == Ok((s, pos + sl))
  {
  }

  lemma {:induction false} MetaRoundTrip(m: Meta, data: seq<Byte>, pos: nat, i: nat)
    requires GoodMeta(m)
    requires pos + |EncodeMeta(m)| <= |data| && data[pos..pos + |EncodeMeta(m)|] == EncodeMeta(m)
    ensures MetaAt(data, pos, i) == Ok((m, pos + |EncodeMeta(m)|))
  {
    MetaLayout(m);
    SliceOfSlice(data, pos, 160, 0, 4);
    SliceOfSlice(data, pos, 160, 4, 132);
    SliceOfSlice(data, pos, 160, 132, 136);
    SliceOfSlice(data, pos, 160, 136, 160);
    I32Of160();
    TrimNulPadded(m.fileName, Zeros(127 - |m.fileName|));
    I32RoundTrip(m.kind);
    WordsRoundTrip(m.bounds);
  }

  lemma {:induction false} PlacedRoundTrip(table: seq<seq<Byte>>, p: Placed, data: seq<Byte>, pos: nat, i: nat)
    requires WellFormed(p.inst) && PyIndex(table, p.inst.ids[2]) == Ok(p.name)
    requires pos + |EncodePlaced(p)| <= |data| && data[pos..pos + |EncodePlaced(p)|] == EncodePlaced(p)
    ensures InstanceAt(table, data, pos, i) == Ok((p, pos + |EncodePlaced(p)|))
  {
    InstanceBytesRoundTrip(p.inst);
  }

  /** A placement record whose index picks its name out of `table`. */
  predicate Resolves(table: seq<seq<Byte>>, p: Placed) {
    WellFormed(p.inst) && PyIndex(table, p.inst.ids[2]) == Ok(p.name)
  }

  lemma {:induction false} NamesReadBack(names: seq<Unk1String>)
    requires forall k :: 0 <= k < |names| ==> GoodName(names[k])
    ensures ReadsBack(NameAt, EncodeName, names)
  {
    forall k, d: seq<Byte>, p: nat, i: nat | 0 <= k < |names|
      ensures ReadsBackAt(NameAt, EncodeName, names[k], d, p, i)
    {
      NameReadsBackAt(names[k], d, p, i);
    }
  }

  /** One name entry reads back from its encoding wherever it sits. */
  lemma {:induction false} NameReadsBackAt(s: Unk1String, d: seq<Byte>, p: nat, i: nat)
    requires GoodName(s)
    ensures ReadsBackAt(NameAt, EncodeName, s, d, p, i)
  {
    if p + |EncodeName(s)| <= |d| && d[p..p + |EncodeName(s)|] == EncodeName(s) {
      NameRoundTrip(s, d, p, i);
    }
  }

  lemma {:induction false} MetasReadBack(metas: seq<Meta>)
    requires forall k :: 0 <= k < |metas| ==> GoodMeta(metas[k])
    ensures ReadsBack(MetaAt, EncodeMeta, metas)
  {
    forall k, d: seq<Byte>, p: nat, i: nat | 0 <= k < |metas|
      ensures ReadsBackAt(MetaAt, EncodeMeta, metas[k], d, p, i)
    {
      if p + |EncodeMeta(metas[k])| <= |d| && d[p..p + |EncodeMeta(metas[k])|] == EncodeMeta(metas[k]) {
        MetaRoundTrip(metas[k], d, p, i);
      }
    }
  }

  lemma {:induction false} PlacedReadBack(table: seq<seq<Byte>>, placed: seq<Placed>)
    requires forall k :: 0 <= k < |placed| ==> Resolves(table, placed[k])
    ensures ReadsBack(InstanceEntry(table), EncodePlaced, placed)
  {
    forall k, d: seq<Byte>, p: nat, i: nat | 0 <= k < |placed|
      ensures ReadsBackAt(InstanceEntry(table), EncodePlaced, placed[k], d, p, i)
    {
      if p + |EncodePlaced(placed[k])| <= |d| && d[p..p + |EncodePlaced(placed[k])|] == EncodePlaced(placed[k]) {
        PlacedRoundTrip(table, placed[k], d, p, i);
      }
    }
  }

  /** The first count was `|items|` and its loop read `items` and stopped
      at `next`: the call goes on with the second segment. */
  lemma {:induction false} ParseSpecStep(t: Tables, data: seq<Byte>, path: seq<Byte>, items: seq<Unk1String>, next: nat)
    requires ReadsCounted(NameAt, data, 11, items, next)
    ensures ParseSpec(t, data, path) == MetaSpec(t.(unk1s := t.unk1s + items), data, next, path)
  {
    assert data[..HEADER_SIZE][11..] == data[11..15];
  }

  /** The second segment read `items` and stopped at `next`: the call
      goes on with the third segment. */
  lemma {:induction false} MetaSpecStep(t: Tables, data: seq<Byte>, pos: nat, path: seq<Byte>, items: seq<Meta>, next: nat)
    requires ReadsCounted(MetaAt, data, pos, items, next)
    ensures MetaSpec(t, data, pos, path) ==
      InstanceSpec(t.(cgfFilenames := t.cgfFilenames + FileNames(items), lines := t.lines + MetaLines(items)), data, next, path)
  {
  }

  /** The third segment read `items` and stopped at `end`: the call is
      over. */
  lemma {:induction false} InstanceSpecStep(t: Tables, data: seq<Byte>, pos: nat, path: seq<Byte>, items: seq<Placed>, end: nat)
    requires ReadsCounted(InstanceEntry(t.cgfFilenames), data, pos, items, end)
    ensures InstanceSpec(t, data, pos, path) ==
      (Ok(Parsed(Paths.OutputBaseName(path), end == |data|)), t.(line2s := t.line2s + InstanceLines(items)))
  {
  }

  /** The whole call, once the three loops are known to read `names`,
      `metas` and `placed` and to stop at `p1`, `p2` and `p3`. */
  lemma {:induction false} ParseSpecChain(t: Tables, names: seq<Unk1String>, metas: seq<Meta>, placed: seq<Placed>,
                                          data: seq<Byte>, p1: nat, p2: nat, p3: nat, path: seq<Byte>)
    requires ReadsCounted(NameAt, data, 11, names, p1)
    requires ReadsCounted(MetaAt, data, p1, metas, p2)
    requires ReadsCounted(InstanceEntry(t.cgfFilenames + FileNames(metas)), data, p2, placed, p3)
    ensures ParseSpec(t, data, path) ==
      (Ok(Parsed(Paths.OutputBaseName(path), p3 == |data|)),
       Tables(t.unk1s + names, t.cgfFilenames + FileNames(metas), t.lines + MetaLines(metas), t.line2s + InstanceLines(placed)))
  {
    ParseSpecStep(t, data, path, names, p1);
    var t1 := t.(unk1s := t.unk1s + names);
    MetaSpecStep(t1, data, p1, path, metas, p2);
    InstanceSpecStep(t1.(cgfFilenames := t1.cgfFilenames + FileNames(metas), lines := t1.lines + MetaLines(metas)),
                     data, p2, path, placed, p3);
  }

  /** Reading bytes that hold, after the 11-byte header, the three lists
      as they are written gives back every string, entry and record,
      appended to the lists as they stood, and reports whether the lists
      ran to the end of the bytes. */
  lemma {:induction false} BrushRoundTrip(t: Tables, names: seq<Unk1String>, metas: seq<Meta>, placed: seq<Placed>,
                                          data: seq<Byte>, path: seq<Byte>)
    requires |names| < TWO_31 && forall k :: 0 <= k < |names| ==> GoodName(names[k])
    requires |metas| < TWO_31 && forall k :: 0 <= k < |metas| ==> GoodMeta(metas[k])
    requires |placed| < TWO_31 && forall k :: 0 <= k < |placed| ==> Resolves(t.cgfFilenames + FileNames(metas), placed[k])
    requires var b := Counted(EncodeName, names) + Counted(EncodeMeta, metas) + Counted(EncodePlaced, placed);
      11 + |b| <= |data| && data[11..11 + |b|] == b
    ensures ParseSpec(t, data, path) ==
      (Ok(Parsed(Paths.OutputBaseName(path),
                 11 + |Counted(EncodeName, names)| + |Counted(EncodeMeta, metas)| + |Counted(EncodePlaced, placed)| == |data|)),
       Tables(t.unk1s + names, t.cgfFilenames + FileNames(metas), t.lines + MetaLines(metas), t.line2s + InstanceLines(placed)))
  {
    var p1 := 11 + |Counted(EncodeName, names)|;
    var p2 := p1 + |Counted(EncodeMeta, metas)|;
    var p3 := p2 + |Counted(EncodePlaced, placed)|;
    NamesReadBack(names);
    MetasReadBack(metas);
    PlacedReadBack(t.cgfFilenames + FileNames(metas), placed);
    ThreeCountedReadBack(NameAt, EncodeName, names, MetaAt, EncodeMeta, metas,
                         InstanceEntry(t.cgfFilenames + FileNames(metas)), EncodePlaced, placed, data, 11, p1, p2, p3);
    ParseSpecChain(t, names, metas, placed, data, p1, p2, p3, path);
  }

  /** The same for a file as `EncodeBrush` writes it, followed by
      `trailing`: the lists ran to the end exactly when nothing follows. */
  lemma {:induction false} EncodedBrushRoundTrip(t: Tables, head: seq<Byte>, names: seq<Unk1String>, metas: seq<Meta>,
                                                 placed: seq<Placed>, trailing: seq<Byte>, path: seq<Byte>)
    requires |head| == 11
    requires |names| < TWO_31 && forall k :: 0 <= k < |names| ==> GoodName(names[k])
    requires |metas| < TWO_31 && forall k :: 0 <= k < |metas| ==> GoodMeta(metas[k])
    requires |placed| < TWO_31 && forall k :: 0 <= k < |placed| ==> Resolves(t.cgfFilenames + FileNames(metas), placed[k])
    ensures ParseSpec(t, EncodeBrush(head, names, metas, placed) + trailing, path) ==
      (Ok(Parsed(Paths.OutputBaseName(path), trailing == [])),
       Tables(t.unk1s + names, t.cgfFilenames + FileNames(metas), t.lines + MetaLines(metas), t.line2s + InstanceLines(placed)))
  {
    EncodedBrushBytes(head, names, metas, placed, trailing);
    BrushRoundTrip(t, names, metas, placed, EncodeBrush(head, names, metas, placed) + trailing, path);
  }

  /** Where the lists sit in a file as `EncodeBrush` writes it. */
  lemma {:induction false} EncodedBrushBytes(head: seq<Byte>, names: seq<Unk1String>, metas: seq<Meta>, placed: seq<Placed>, trailing: seq<Byte>)
    requires |head| == 11 && |names| < TWO_31 && |metas| < TWO_31 && |placed| < TWO_31
    ensures var data := EncodeBrush(head, names, metas, placed) + trailing;
      var b := Counted(EncodeName, names) + Counted(EncodeMeta, metas) + Counted(EncodePlaced, placed);
      11 + |b| <= |data| && data[11..11 + |b|] == b &&
      (11 + |Counted(EncodeName, names)| + |Counted(EncodeMeta, metas)| + |Counted(EncodePlaced, placed)| == |data| <==> trailing == [])
  {
    var b := Counted(EncodeName, names) + Counted(EncodeMeta, metas) + Counted(EncodePlaced, placed);
    assert EncodeBrush(head, names, metas, placed) + trailing == head + b + trailing;
    assert (head + b + trailing)[11..11 + |b|] == b;
  }
}
