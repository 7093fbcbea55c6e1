/** `CoverCTC.s3tc_decode`: DXT1 blocks of 8 bytes (two RGB565 colours and
    sixteen 2-bit selectors) expanded to 4-byte pixels in a bytearray. */
module S3tc {
  import opened Bytes
  import opened Outcome
  import opened Reader
  import opened Packing

  /** The low 32 bits of a Python integer in two's complement; `&` with a
      mask below 2^32 sees only these. */
  function Bits(v: int): bv32 {
    (v % TWO_32) as bv32
  }

  /** `(c << 19 | c >> 8) & 0xf800f8`: red (bits 11-15 of `c`) moved to bits
      3-7 and blue (bits 0-4) to bits 19-23. */
  function RedBlue(c: int): int {
    ((Bits(c * 0x8_0000) | Bits(c / 0x100)) & 0xf800f8) as int
  }

  /** `g = (c << 5) & 0xfc00` followed by `g = g + (g >> 6) & 0x300`, which
      Python reads as `(g + (g >> 6)) & 0x300`. */
  function Green(c: int): int {
    var g := (Bits(c * 0x20) & 0xfc00) as int;
    (Bits(g + g / 0x40) & 0x300) as int
  }

  /** `(((2 * x + y) * 21) >> 6) & mask`: two thirds of the way from `y` to
      `x`. */
  function Blend(x: int, y: int, mask: bv32): int {
    (Bits((2 * x + y) * 21 / 0x40) & mask) as int
  }

  /** `((x + y) >> 1) & mask`. */
  function Mean(x: int, y: int, mask: bv32): int {
    (Bits((x + y) / 2) & mask) as int
  }

  /** The value `s3tc_decode` always uses for `one_bit_alpha_flag`. */
  const ONE_BIT_ALPHA_FLAG: int := 1

  /** The four colours of a block (lines 183-212); `flag` is the
      one-bit-alpha flag, and `((1 - flag) * 255) << 24` the alpha added to
      each colour. */
  function Palette(c0: int, c1: int, flag: int): (colors: seq<int>)
    ensures |colors| == 4
  {
    var rb0, rb1 := RedBlue(c0), RedBlue(c1);
    var g0, g1 := Green(c0), Green(c1);
    var alpha := (1 - flag) * 255 * 0x100_0000;
    if c0 > c1 || flag != 0 then
      [rb0 + g0 + alpha, rb1 + g1 + alpha,
       Blend(rb0, rb1, 0xff00ff) + Blend(g0, g1, 0xff00) + alpha,
       Blend(rb1, rb0, 0xff00ff) + Blend(g1, g0, 0xff00) + alpha]
    else
      [rb0 + g0 + alpha, rb1 + g1 + alpha, Mean(rb0, rb1, 0xff00ff) + Mean(g0, g1, 0xff00) + alpha, 0]
  }

  /** The colour channels stay inside their masks; green keeps only bits 8
      and 9, so the green byte of a decoded colour is at most 3. */
  lemma {:induction false} ChannelBounds(c: int)
    ensures 0 <= RedBlue(c) <= 0xf800f8
    ensures Green(c) in {0, 0x100, 0x200, 0x300}
  {
  }

  /** With the flag set every colour is below 2^24: the alpha byte of every
      decoded pixel is 0, and `<i` never rejects a colour. */
  lemma {:induction false} PaletteOpaqueFree(c0: int, c1: int)
    ensures forall k :: 0 <= k < 4 ==> 0 <= Palette(c0, c1, ONE_BIT_ALPHA_FLAG)[k] < 0x100_0000
  {
    ChannelBounds(c0);
    ChannelBounds(c1);
    var rb0, rb1, g0, g1 := RedBlue(c0), RedBlue(c1), Green(c0), Green(c1);
    BlendBounds(rb0, rb1, 0xff00ff);
    BlendBounds(rb1, rb0, 0xff00ff);
    BlendBounds(g0, g1, 0xff00);
    BlendBounds(g1, g0, 0xff00);
  }

  lemma {:induction false} BlendBounds(x: int, y: int, mask: bv32)
    requires mask == 0xff00ff || mask == 0xff00
    ensures 0 <= Blend(x, y, mask) <= mask as int
  {
  }

  /** The flag only changes the alpha byte: when the first colour is the
      greater, clearing it adds `0xff` alpha to every colour. */
  lemma {:induction false} FlagOnlyAlpha(c0: int, c1: int)
    requires c0 > c1
    ensures forall k :: 0 <= k < 4 ==> Palette(c0, c1, 0)[k] == Palette(c0, c1, ONE_BIT_ALPHA_FLAG)[k] + 0xff00_0000
  {
  }

  /** With the flag clear and the first colour not the greater, a block has
      three colours and a transparent fourth; the flag `s3tc_decode` uses
      never takes that path. */
  lemma {:induction false} ThreeColourMode(c0: int, c1: int)
    requires c0 <= c1
    ensures Palette(c0, c1, 0)[3] == 0
    ensures Palette(c0, c1, ONE_BIT_ALPHA_FLAG)[3] == Blend(RedBlue(c1), RedBlue(c0), 0xff00ff) + Blend(Green(c1), Green(c0), 0xff00)
  {
  }

  /** `pixels_index` after `n` shifts `>> 2`. */
  function IndexAfter(idx: int, n: nat): int
    decreases n
  {
    if n == 0 then idx else IndexAfter(idx, n - 1) / 4
  }

  /** The palette entry of pixel `j`: `pixels_index & 3` after `j` shifts. */
  function Selector(idx: int, j: nat): (s: int)
    ensures 0 <= s < 4
  {
    IndexAfter(idx, j) % 4
  }

  /** An all-zero selector word picks the first colour for every pixel. */
  lemma {:induction false} ZeroSelectors(j: nat)
    ensures IndexAfter(0, j) == 0 && Selector(0, j) == 0
    decreases j
  {
    if j > 0 {
      ZeroSelectors(j - 1);
    }
  }

  /** The offset of row `y` of a block starting at `start`: each row moves
      `pixels_width * 4` bytes on. */
  function RowStart(start: nat, width: nat, y: nat): (r: nat)
    ensures r >= start
    decreases y
  {
    if y == 0 then start else RowStart(start, width, y - 1) + width * 4
  }

  /** Where pixel `j` (row `j / 4`, column `j % 4`) of a block starting at
      `start` goes: `x * 4` past its row's offset. */
  function PixelOffset(start: nat, width: nat, j: nat): nat {
    RowStart(start, width, j / 4) + (j % 4) * 4
  }

  /** The sixteen writes of a block in the order the loops make them: pixel
      `j` goes to `PixelOffset(start, width, j)` and takes palette entry
      `Selector(idx, j)`. */
  function Targets(start: nat, width: nat, colors: seq<int>, idx: int): (ts: seq<(nat, int)>)
    requires |colors| == 4
    ensures |ts| == 16
  {
    seq(16, j requires 0 <= j < 16 => (PixelOffset(start, width, j), colors[Selector(idx, j)]))
  }

  /** `struct.pack_into('<i', ...)` for each `(offset, value)` in turn, up
      to the first call that raises. */
  function WriteAll(buf: seq<Byte>, writes: seq<(nat, int)>): (r: (Option<Error>, seq<Byte>))
    ensures |r.1| == |buf|
    decreases |writes|
  {
    if writes == [] then (None, buf)
    else
      var prev := WriteAll(buf, writes[..|writes| - 1]);
      if prev.0.Some? then prev
      else PixelWrite(prev.1, writes[|writes| - 1].0, writes[|writes| - 1].1)
  }

  /** `struct.pack_into('<i', decode_data, off, v)` for one pixel. */
  function PixelWrite(buf: seq<Byte>, off: nat, v: int): (r: (Option<Error>, seq<Byte>))
    ensures |r.1| == |buf|
  {
    if off + 4 > |buf| then (Some(OutOfBuffer), buf)
    else if -TWO_31 <= v < TWO_31 then (None, Splice(buf, off, EncodeI32(v)))
    else (Some(BadFormat), Splice(buf, off, Zeros(4)))
  }

  /** `PixelWrite` is `pack_into` with the format `<i`: a region past the
      end fails untouched, a value outside the 32-bit range raises after
      the region is cleared. */
  lemma {:induction false} PixelWritePacks(buf: seq<Byte>, off: nat, v: int)
    ensures var w := PackSpec([IntField(v)], buf, off);
      PixelWrite(buf, off, v) == (if w.0.Ok? then None else Some(w.0.error), w.1)
  {
    var fields := [IntField(v)];
    assert fields[1..] == [];
    assert FormatSize(fields) == 4;
    if -TWO_31 <= v < TWO_31 {
      assert FieldBytes(fields[0]) == Ok(EncodeI32(v));
      assert Encoded(fields) == (EncodeI32(v) + [], None);
      assert EncodeI32(v) + [] == EncodeI32(v);
      assert PadTo(EncodeI32(v), 4) == EncodeI32(v)[..4] == EncodeI32(v);
    } else {
      assert Encoded(fields) == ([], Some(BadFormat));
      assert PadTo([], 4) == [] + Zeros(4) == Zeros(4);
    }
  }

  /** `struct.pack_into('<i', decode_data, off, v)` (line 219). */
  method PackPixel(decode: array<Byte>, off: nat, v: int) returns (err: Option<Error>)
    modifies decode
    ensures (err, decode[..]) == PixelWrite(old(decode[..]), off, v)
  {
    PixelWritePacks(decode[..], off, v);
    var w := PackInto([IntField(v)], decode, off);
    err := if w.Ok? then None else Some(w.error);
  }

  /** One block (lines 175-231 for one `block_x`): two `unpack` calls for
      the colours and the selectors, then the sixteen pixels. */
  function BlockSpec(buf: seq<Byte>, enc: seq<Byte>, e: nat, start: nat, width: nat): (r: (Option<Error>, seq<Byte>))
    ensures |r.1| == |buf|
  {
    match Read(enc, e, 4)
    case Err(err) => (Some(err), buf)
    case Ok(cv) =>
      match ReadI32(enc, e + 4)
      case Err(err) => (Some(err), buf)
      case Ok(idx) => WriteAll(buf, Targets(start, width, Palette(I16(cv[..2]), I16(cv[2..]), ONE_BIT_ALPHA_FLAG), idx))
  }

  /** `base` moved on by `step` `k` times. */
  function Steps(base: int, step: int, k: nat): (r: int)
    ensures step >= 0 ==> r >= base
    decreases k
  {
    if k == 0 then base else Steps(base, step, k - 1) + step
  }

  /** Moving on `k` times by `step` is moving on by `k * step`. */
  lemma {:induction false} StepsProduct(base: int, step: int, k: nat)
    ensures Steps(base, step, k) == base + k * step
    decreases k
  {
    if k > 0 {
      StepsProduct(base, step, k - 1);
    }
  }

  /** The first `n` blocks of the one block row that is decoded. Block `k`
      starts `k * (16 * width + 16)` bytes in: each block moves the decode
      offset four pixel rows down and four pixels right. */
  function RowSpec(buf: seq<Byte>, enc: seq<Byte>, e0: nat, d0: nat, width: nat, n: nat): (r: (Option<Error>, seq<Byte>))
    ensures |r.1| == |buf|
  {
    BlocksBefore(buf, enc, e0, d0, width, n)
  }

  /** The buffer once blocks `0` to `n - 1` have had their turn. */
  function BlocksBefore(buf: seq<Byte>, enc: seq<Byte>, e0: nat, d0: nat, width: nat, n: nat): (r: (Option<Error>, seq<Byte>))
    ensures |r.1| == |buf|
    decreases n, 0
  {
    if n == 0 then (None, buf) else BlockAfter(buf, enc, e0, d0, width, n - 1)
  }

  /** The buffer once block `k` has had its turn: the blocks before it,
      then block `k` itself unless one of those raised. */
  function BlockAfter(buf: seq<Byte>, enc: seq<Byte>, e0: nat, d0: nat, width: nat, k: nat): (r: (Option<Error>, seq<Byte>))
    ensures |r.1| == |buf|
    decreases k, 1
  {
    var prev := BlocksBefore(buf, enc, e0, d0, width, k);
    if prev.0.Some? then prev
    else BlockSpec(prev.1, enc, e0 + 8 * k, Steps(d0, 16 * width + 16, k) as nat, width)
  }

  /** How many `k >= 0` pass `k < extent / 4` under true division: the
      `k` with `4 * k < extent` are exactly those below `n`. */
  function BlockCount(extent: int): (n: nat)
    ensures extent <= 0 ==> n == 0
    ensures extent > 0 ==> 4 * (n - 1) < extent <= 4 * n
  {
    if extent <= 0 then 0 else (extent + 3) / 4
  }

  /** The row width as far as blocks go: a width below one decodes no
      block. */
  function RowWidth(width: int): nat {
    if width > 0 then width else 0
  }

  /** The offsets `s3tc_decode` prints when every block decodes. */
  function DecodeEnd(e0: nat, d0: nat, width: int, height: int): (int, int) {
    var cols := BlockCount(width);
    var rows := BlockCount(height);
    if rows == 0 then (d0 as int, e0 as int)
    else (Steps(Steps(d0, 16 * RowWidth(width) + 16, cols), 12 * width, rows), e0 + 8 * cols)
  }

  /** With no block row the printed offsets are the starting ones;
      otherwise the decode offset has moved `16 * width + 16` per block of
      the first row and `12 * width` per block row, and the encode offset 8
      bytes per block. */
  lemma {:induction false} DecodeOffsets(e0: nat, d0: nat, width: int, height: int)
    ensures DecodeEnd(e0, d0, width, height) ==
            if height <= 0 then (d0 as int, e0 as int)
            else (d0 + BlockCount(width) * (16 * width + 16) + BlockCount(height) * (12 * width),
                  e0 + 8 * BlockCount(width))
  {
    var w := RowWidth(width);
    StepsProduct(d0, 16 * w + 16, BlockCount(width));
    StepsProduct(Steps(d0, 16 * w + 16, BlockCount(width)), 12 * width, BlockCount(height));
  }

  /** `s3tc_decode` (lines 162-232): `block_x` is never reset, so only the
      first block row is decoded, and every later row only moves the decode
      offset. On success the result is the two offsets the function prints. */
  function DecodeSpec(buf: seq<Byte>, enc: seq<Byte>, e0: nat, d0: nat, width: int, height: int): (r: (Result<(int, int)>, seq<Byte>))
    ensures |r.1| == |buf|
  {
    if BlockCount(height) == 0 then (Ok((d0 as int, e0 as int)), buf)
    else
      var row := RowSpec(buf, enc, e0, d0, RowWidth(width), BlockCount(width));
      if row.0.Some? then (Err(row.0.value), row.1)
      else (Ok(DecodeEnd(e0, d0, width, height)), row.1)
  }

  /** Once a write has raised, the later ones are never made. */
  lemma {:induction false} WritesStop(buf: seq<Byte>, writes: seq<(nat, int)>, i: nat, n: nat)
    requires i <= n <= |writes|
    requires WriteAll(buf, writes[..i]).0.Some?
    ensures WriteAll(buf, writes[..n]) == WriteAll(buf, writes[..i])
    decreases n
  {
    if n > i {
      WritesStop(buf, writes, i, n - 1);
      assert writes[..n][..n - 1] == writes[..n - 1];
    }
  }

  /** Once a block has raised, the later ones are never decoded. */
  lemma {:induction false} RowStops(buf: seq<Byte>, enc: seq<Byte>, e0: nat, d0: nat, width: nat, i: nat, n: nat)
    requires i <= n
    requires RowSpec(buf, enc, e0, d0, width, i).0.Some?
    ensures RowSpec(buf, enc, e0, d0, width, n) == RowSpec(buf, enc, e0, d0, width, i)
    decreases n
  {
    if n > i {
      RowStops(buf, enc, e0, d0, width, i, n - 1);
      assert BlocksBefore(buf, enc, e0, d0, width, n) == BlockAfter(buf, enc, e0, d0, width, n - 1);
    }
  }

  /** One more block of the row. */
  lemma {:induction false} RowNext(buf: seq<Byte>, enc: seq<Byte>, e0: nat, d0: nat, width: nat, n: nat, cur: seq<Byte>)
    requires RowSpec(buf, enc, e0, d0, width, n) == (None, cur)
    ensures RowSpec(buf, enc, e0, d0, width, n + 1) ==
            BlockSpec(cur, enc, e0 + 8 * n, Steps(d0, 16 * width + 16, n) as nat, width)
  {
    assert BlocksBefore(buf, enc, e0, d0, width, n + 1) == BlockAfter(buf, enc, e0, d0, width, n);
  }

  /** The four writes of row `y` of a block go to consecutive pixels from
      the row's start. */
  lemma {:induction false} RowTargets(start: nat, width: nat, colors: seq<int>, idx: int, y: nat)
    requires |colors| == 4 && y < 4
    ensures forall j :: 4 * y <= j < 4 * y + 4 ==>
      Targets(start, width, colors, idx)[j] == (RowStart(start, width, y) + (j - 4 * y) * 4, colors[Selector(idx, j)])
  {
    forall j | 4 * y <= j < 4 * y + 4
      ensures PixelOffset(start, width, j) == RowStart(start, width, y) + (j - 4 * y) * 4
    {
      assert j / 4 == y && j % 4 == j - 4 * y;
    }
  }

  /** One more write: if it returns, the first `j + 1` writes have been
      made; if it raises, that is the outcome of all of them. */
  lemma {:induction false} WriteStep(buf: seq<Byte>, writes: seq<(nat, int)>, j: nat, cur: seq<Byte>,
                                     off: nat, v: int, w: Option<Error>, after: seq<Byte>)
    requires j < |writes| && writes[j].0 == off && writes[j].1 == v
    requires WriteAll(buf, writes[..j]) == (None, cur)
    requires (w, after) == PixelWrite(cur, off, v)
    ensures w.None? ==> WriteAll(buf, writes[..j + 1]) == (None, after)
    ensures w.Some? ==> WriteAll(buf, writes) == (w, after)
  {
    assert writes[..j + 1][..j] == writes[..j];
    if w.Some? {
      WritesStop(buf, writes, j + 1, |writes|);
      assert writes[..|writes|] == writes;
    }
  }

  /** The inner loop over `x` (lines 215-221): four pixels of row `y`,
      written from `rowOffset` on. */
  method DecodePixelRow(colors: seq<int>, decode: array<Byte>, rowOffset: nat, pixelsIndex: int, alpha: int,
                        ghost before: seq<Byte>, ghost writes: seq<(nat, int)>, ghost idx: int, ghost y: nat)
    returns (err: Option<Error>, pixelsIndex': int, alpha': int)
    requires |colors| == 4 && |writes| == 16 && y < 4 && alpha == 0
    requires forall j :: 4 * y <= j < 4 * y + 4 ==> writes[j] == (rowOffset + (j - 4 * y) * 4, colors[Selector(idx, j)])
    requires pixelsIndex == IndexAfter(idx, 4 * y)
    requires (None, decode[..]) == WriteAll(before, writes[..4 * y])
    modifies decode
    ensures err.Some? ==> (err, decode[..]) == WriteAll(before, writes)
    ensures err.None? ==> (None, decode[..]) == WriteAll(before, writes[..4 * y + 4])
    ensures err.None? ==> pixelsIndex' == IndexAfter(idx, 4 * y + 4) && alpha' == 0
  {
    pixelsIndex', alpha' := pixelsIndex, alpha;
    for x := 0 to 4
      invariant pixelsIndex' == IndexAfter(idx, 4 * y + x) && alpha' == 0
      invariant (None, decode[..]) == WriteAll(before, writes[..4 * y + x])
    {
      var initAlpha := (alpha' % 16) * 0x1000_0000;
      initAlpha := (initAlpha + initAlpha) / 16;
      var v := initAlpha + colors[pixelsIndex' % 4];
      ghost var j := 4 * y + x;
      assert writes[j].1 == v && writes[j].0 == rowOffset + x * 4;
      ghost var cur := decode[..];
      var w := PackPixel(decode, rowOffset + x * 4, v);
      WriteStep(before, writes, j, cur, rowOffset + x * 4, v, w, decode[..]);
      if w.Some? {
        return w, pixelsIndex', alpha';
      }
      pixelsIndex' := pixelsIndex' / 4;
      alpha' := alpha' / 16;
    }
    return None, pixelsIndex', alpha';
  }

  /** The pixel loops of one block (lines 214-224): sixteen writes, four
      to a row, the row offset moving `width * 4` bytes per row. */
  method DecodePixels(colors: seq<int>, idx: int, decode: array<Byte>, start: nat, width: nat)
    returns (err: Option<Error>)
    requires |colors| == 4
    modifies decode
    ensures (err, decode[..]) == WriteAll(old(decode[..]), Targets(start, width, colors, idx))
  {
    ghost var before := decode[..];
    ghost var writes := Targets(start, width, colors, idx);
    var alpha := 0;
    var pixelsIndex := idx;
    var rowOffset := start;
    for y := 0 to 4
      invariant rowOffset == RowStart(start, width, y)
      invariant pixelsIndex == IndexAfter(idx, 4 * y) && alpha == 0
      invariant (None, decode[..]) == WriteAll(before, writes[..4 * y])
    {
      RowTargets(start, width, colors, idx, y);
      err, pixelsIndex, alpha := DecodePixelRow(colors, decode, rowOffset, pixelsIndex, alpha, before, writes, idx, y);
      if err.Some? {
        return;
      }
      rowOffset := rowOffset + width * 4;
    }
    assert writes[..16] == writes;
    return None;
  }

  /** One block (lines 175-228 for one `block_x`): the colours and the
      selector word read through the cell, then the sixteen pixels written
      from `start`, `width` pixels to a row. */
  method DecodeBlock(enc: seq<Byte>, encodeOffset: array<nat>, decode: array<Byte>, start: nat, width: nat)
    returns (err: Option<Error>)
    requires encodeOffset.Length == 1
    modifies encodeOffset, decode
    ensures (err, decode[..]) == BlockSpec(old(decode[..]), enc, old(encodeOffset[0]), start, width)
    ensures err.None? ==> encodeOffset[0] == old(encodeOffset[0]) + 8
  {
    ghost var e := encodeOffset[0];
    var oneBitAlphaFlag := ONE_BIT_ALPHA_FLAG;
    var colorValues := Unpack(enc, 4, encodeOffset);
    if colorValues.Err? {
      return Some(colorValues.error);
    }
    var colors := Palette(I16(colorValues.value[..2]), I16(colorValues.value[2..]), oneBitAlphaFlag);
    var indexBytes := Unpack(enc, 4, encodeOffset);
    if indexBytes.Err? {
      return Some(indexBytes.error);
    }
    var idx := I32(indexBytes.value);
    assert ReadI32(enc, e + 4) == Ok(idx);
    err := DecodePixels(colors, idx, decode, start, width);
  }

  /** One turn of the loop over `block_x` (lines 179-231): block `k` of
      the row decoded at the current decode offset, which then moves past
      the block's four pixel rows and four pixels on. */
  method DecodeBlockAt(enc: seq<Byte>, encodeOffset: array<nat>, decode: array<Byte>, decodeOffset: int, width: nat,
                       ghost e0: nat, ghost d0: nat, ghost before: seq<Byte>, ghost k: nat)
    returns (err: Option<Error>, decodeOffset': int)
    requires encodeOffset.Length == 1
    requires encodeOffset[0] == e0 + 8 * k && decodeOffset == Steps(d0, 16 * width + 16, k)
    requires RowSpec(before, enc, e0, d0, width, k) == (None, decode[..])
    modifies encodeOffset, decode
    ensures (err, decode[..]) == RowSpec(before, enc, e0, d0, width, k + 1)
    ensures err.None? ==> encodeOffset[0] == e0 + 8 * (k + 1) && decodeOffset' == Steps(d0, 16 * width + 16, k + 1)
  {
    ghost var prev := decode[..];
    ghost var e := encodeOffset[0];
    var start: nat := decodeOffset;
    err := DecodeBlock(enc, encodeOffset, decode, start, width);
    RowNext(before, enc, e0, d0, width, k, prev);
    decodeOffset' := decodeOffset + 4 * (width * 4);
    decodeOffset' := decodeOffset' + 4 * 4;
    assert decodeOffset' == Steps(d0, 16 * width + 16, k) + (16 * width + 16);
  }

  /** The inner loop over `block_x` (lines 174-231). `block_x` is never
      reset, so it only runs in the first block row; later rows find it
      already at the end. */
  method DecodeRow(enc: seq<Byte>, encodeOffset: array<nat>, decode: array<Byte>, decodeOffset: int, blockX: nat,
                   width: int, ghost e0: nat, ghost d0: nat, ghost before: seq<Byte>)
    returns (err: Option<Error>, decodeOffset': int, blockX': nat)
    requires encodeOffset.Length == 1
    requires blockX <= BlockCount(width) && encodeOffset[0] == e0 + 8 * blockX
    requires blockX < BlockCount(width) ==> decodeOffset == Steps(d0, 16 * RowWidth(width) + 16, blockX)
    requires RowSpec(before, enc, e0, d0, RowWidth(width), blockX) == (None, decode[..])
    modifies encodeOffset, decode
    ensures err.Some? ==> (err, decode[..]) == RowSpec(before, enc, e0, d0, RowWidth(width), BlockCount(width))
    ensures err.None? ==> blockX' == BlockCount(width) && encodeOffset[0] == e0 + 8 * blockX'
    ensures err.None? ==> RowSpec(before, enc, e0, d0, RowWidth(width), blockX') == (None, decode[..])
    ensures err.None? && blockX < BlockCount(width) ==> decodeOffset' == Steps(d0, 16 * RowWidth(width) + 16, blockX')
    ensures err.None? && blockX == BlockCount(width) ==> decodeOffset' == decodeOffset
  {
    ghost var cols := BlockCount(width);
    var w := RowWidth(width);
    decodeOffset', blockX' := decodeOffset, blockX;
    while 4 * blockX' < width
      invariant blockX <= blockX' <= cols
      invariant encodeOffset[0] == e0 + 8 * blockX'
      invariant blockX < cols ==> decodeOffset' == Steps(d0, 16 * w + 16, blockX')
      invariant blockX == cols ==> decodeOffset' == decodeOffset && blockX' == cols
      invariant RowSpec(before, enc, e0, d0, w, blockX') == (None, decode[..])
      decreases width - 4 * blockX'
    {
      err, decodeOffset' := DecodeBlockAt(enc, encodeOffset, decode, decodeOffset', w, e0, d0, before, blockX');
      if err.Some? {
        RowStops(before, enc, e0, d0, w, blockX' + 1, cols);
        return;
      }
      blockX' := blockX' + 1;
    }
    return None, decodeOffset', blockX';
  }

  /** `s3tc_decode((enc, e0), (decode, d0), width, height, flag)`; `flag`
      is never read. */
  method Decode(enc: seq<Byte>, e0: nat, decode: array<Byte>, d0: nat, width: int, height: int, decodeFlag: int)
    returns (r: Result<(int, int)>)
    modifies decode
    ensures (r, decode[..]) == DecodeSpec(old(decode[..]), enc, e0, d0, width, height)
  {
    ghost var before := decode[..];
    ghost var cols := BlockCount(width);
    ghost var rows := BlockCount(height);
    ghost var w := RowWidth(width);
    var blockY := 0;
    var blockX := 0;
    var encodeOffset := new nat[1];
    encodeOffset[0] := e0;
    var decodeOffset: int := d0;
    while 4 * blockY < height
      invariant 0 <= blockY <= rows
      invariant blockX == if blockY == 0 then 0 else cols
      invariant encodeOffset[0] == e0 + 8 * blockX
      invariant decodeOffset == Steps(Steps(d0, 16 * w + 16, blockX), 12 * width, blockY)
      invariant RowSpec(before, enc, e0, d0, w, blockX) == (None, decode[..])
      decreases height - 4 * blockY
    {
      var err;
      err, decodeOffset, blockX := DecodeRow(enc, encodeOffset, decode, decodeOffset, blockX, width, e0, d0, before);
      if err.Some? {
        r := Err(err.value);
        return;
      }
      blockY := blockY + 1;
      decodeOffset := decodeOffset + (3 * width) * 4;
    }
    assert blockY == rows;
    r := Ok((decodeOffset, encodeOffset[0]));
    if rows > 0 {
      assert blockX == cols;
      assert decodeOffset == DecodeEnd(e0, d0, width, height).0;
      assert DecodeSpec(before, enc, e0, d0, width, height) == (Ok(DecodeEnd(e0, d0, width, height)), decode[..]);
    }
  }
}
