/** What `s3tc_decode` promises about the buffer it writes: when it
    succeeds, where each pixel lands and what it holds, and that only the
    first block row is ever decoded. */
module S3tcLaws {
  import opened Bytes
  import opened Outcome
  import opened Reader
  import opened Packing
  import opened S3tc

  /** No two writes of `writes` share a byte. */
  predicate Disjoint(writes: seq<(nat, int)>) {
    forall i, j :: 0 <= i < j < |writes| ==> writes[i].0 + 4 <= writes[j].0 || writes[j].0 + 4 <= writes[i].0
  }

  /** The writes all succeed exactly when every one fits in the buffer
      and holds a value `<i` accepts. */
  lemma {:induction false} WriteAllOk(buf: seq<Byte>, writes: seq<(nat, int)>)
    ensures WriteAll(buf, writes).0.None? <==>
            forall i :: 0 <= i < |writes| ==> writes[i].0 + 4 <= |buf| && -TWO_31 <= writes[i].1 < TWO_31
    decreases |writes|
  {
    if writes != [] {
      var init := writes[..|writes| - 1];
      WriteAllOk(buf, init);
      assert forall i :: 0 <= i < |init| ==> init[i] == writes[i];
    }
  }

  /** After writes that all succeed and share no byte, every write's four
      bytes hold its value in `<i` form and every byte no write covers is
      as it was. */
  lemma {:induction false} WriteAllPlaces(buf: seq<Byte>, writes: seq<(nat, int)>)
    requires WriteAll(buf, writes).0.None? && Disjoint(writes)
    ensures forall i :: 0 <= i < |writes| ==>
      writes[i].0 + 4 <= |buf| && -TWO_31 <= writes[i].1 < TWO_31 &&
      WriteAll(buf, writes).1[writes[i].0..writes[i].0 + 4] == EncodeI32(writes[i].1)
    ensures forall k :: 0 <= k < |buf| && (forall i :: 0 <= i < |writes| ==> !(writes[i].0 <= k < writes[i].0 + 4)) ==>
      WriteAll(buf, writes).1[k] == buf[k]
    decreases |writes|
  {
    if writes != [] {
      var n := |writes| - 1;
      var init := writes[..n];
      assert forall i :: 0 <= i < n ==> init[i] == writes[i];
      assert Disjoint(init);
      WriteAllPlaces(buf, init);
      var prev := WriteAll(buf, init).1;
      var off, v := writes[n].0, writes[n].1;
      WriteAllOk(buf, writes);
      assert WriteAll(buf, writes).1 == Splice(prev, off, EncodeI32(v));
      SpliceBytes(prev, off, EncodeI32(v));
      forall i | 0 <= i < n
        ensures WriteAll(buf, writes).1[writes[i].0..writes[i].0 + 4] == EncodeI32(writes[i].1)
      {
        assert prev[writes[i].0..writes[i].0 + 4] == EncodeI32(writes[i].1);
      }
    }
  }

  /** Row `y'` of a block starts at least `y' - y` whole rows after row
      `y`. */
  lemma {:induction false} RowStartGrows(start: nat, width: nat, y: nat, y': nat)
    requires y < y'
    ensures RowStart(start, width, y') >= RowStart(start, width, y) + 4 * width
    decreases y'
  {
    if y' > y + 1 {
      RowStartGrows(start, width, y, y' - 1);
    }
  }

  /** Row `y` starts `y` rows of `width` four-byte pixels in. */
  lemma {:induction false} RowStartProduct(start: nat, width: nat, y: nat)
    ensures RowStart(start, width, y) == start + y * (4 * width)
    decreases y
  {
    if y > 0 {
      RowStartProduct(start, width, y - 1);
    }
  }

  /** With at least four pixels to a row, the sixteen pixels of a block
      never overlap. */
  lemma {:induction false} TargetsDisjoint(start: nat, width: nat, colors: seq<int>, idx: int)
    requires |colors| == 4 && width >= 4
    ensures Disjoint(Targets(start, width, colors, idx))
  {
    var ts := Targets(start, width, colors, idx);
    forall i, j | 0 <= i < j < 16
      ensures ts[i].0 + 4 <= ts[j].0 || ts[j].0 + 4 <= ts[i].0
    {
      if i / 4 < j / 4 {
        RowStartGrows(start, width, i / 4, j / 4);
      }
    }
  }

  /** Every pixel of a block lies between the block's start and the end
      of its fourth row. */
  lemma {:induction false} TargetsWithin(start: nat, width: nat, colors: seq<int>, idx: int)
    requires |colors| == 4
    ensures forall j :: 0 <= j < 16 ==> start <= Targets(start, width, colors, idx)[j].0 <= start + 12 * width + 12
    ensures Targets(start, width, colors, idx)[15].0 == start + 12 * width + 12
  {
    var ts := Targets(start, width, colors, idx);
    forall j | 0 <= j < 16
      ensures ts[j].0 <= start + 12 * width + 12
    {
      if j / 4 < 3 {
        RowStartGrows(start, width, j / 4, 3);
      }
    }
    RowStartProduct(start, width, 3);
  }

  /** A selector word of zero paints the whole block in the first
      colour. */
  lemma {:induction false} ZeroIndexUniform(start: nat, width: nat, colors: seq<int>)
    requires |colors| == 4
    ensures forall j :: 0 <= j < 16 ==> Targets(start, width, colors, 0)[j].1 == colors[0]
  {
    forall j | 0 <= j < 16
      ensures Targets(start, width, colors, 0)[j].1 == colors[0]
    {
      ZeroSelectors(j);
    }
  }

  /** The palette of the 4-byte colour record at `e`. */
  function BlockColours(enc: seq<Byte>, e: nat): (colors: seq<int>)
    requires e + 4 <= |enc|
    ensures |colors| == 4
  {
    Palette(I16(enc[e..e + 2]), I16(enc[e + 2..e + 4]), ONE_BIT_ALPHA_FLAG)
  }

  /** A block decodes exactly when its 8 bytes are there to read and its
      last pixel, at the end of its fourth row, fits in the buffer. */
  lemma {:induction false} BlockSpecOk(buf: seq<Byte>, enc: seq<Byte>, e: nat, start: nat, width: nat)
    ensures BlockSpec(buf, enc, e, start, width).0.None? <==> e + 8 <= |enc| && start + 12 * width + 16 <= |buf|
  {
    if e + 8 <= |enc| {
      var colors := BlockColours(enc, e);
      var idx := I32(enc[e + 4..e + 8]);
      BlockWrites(buf, enc, e, start, width);
      TargetsWithin(start, width, colors, idx);
      WriteAllOk(buf, Targets(start, width, colors, idx));
    }
  }

  /** The sixteen writes of a block, with at least four pixels to a row
      and colours below 2^24, once they all succeed: pixel `j` holds
      palette entry `Selector(idx, j)` in `<i` form with a zero alpha
      byte, and no byte outside the block's pixels changes. */
  lemma {:induction false} TargetsPlaces(buf: seq<Byte>, start: nat, width: nat, colors: seq<int>, idx: int)
    requires |colors| == 4 && width >= 4
    requires forall c :: 0 <= c < 4 ==> 0 <= colors[c] < 0x100_0000
    requires WriteAll(buf, Targets(start, width, colors, idx)).0.None?
    ensures var out := WriteAll(buf, Targets(start, width, colors, idx)).1;
      forall j :: 0 <= j < 16 ==>
        var off := PixelOffset(start, width, j);
        off + 4 <= |buf| && out[off..off + 4] == EncodeI32(colors[Selector(idx, j)]) && out[off + 3] == 0
    ensures var out := WriteAll(buf, Targets(start, width, colors, idx)).1;
      forall k :: 0 <= k < |buf| && (forall j :: 0 <= j < 16 ==> !(PixelOffset(start, width, j) <= k < PixelOffset(start, width, j) + 4)) ==>
        out[k] == buf[k]
  {
    var ts := Targets(start, width, colors, idx);
    var out := WriteAll(buf, ts).1;
    TargetsDisjoint(start, width, colors, idx);
    WriteAllPlaces(buf, ts);
    assert forall j :: 0 <= j < 16 ==> ts[j].0 == PixelOffset(start, width, j);
    forall j | 0 <= j < 16
      ensures var off := PixelOffset(start, width, j);
        off + 4 <= |buf| && out[off..off + 4] == EncodeI32(colors[Selector(idx, j)]) && out[off + 3] == 0
    {
      assert ts[j].1 == colors[Selector(idx, j)];
      EncodeI32HighByte(colors[Selector(idx, j)]);
      assert out[ts[j].0 + 3] == out[ts[j].0..ts[j].0 + 4][3];
    }
  }

  /** A block whose 8 bytes are there writes the palette of its colour
      record through its selector word. */
  lemma {:induction false} BlockWrites(buf: seq<Byte>, enc: seq<Byte>, e: nat, start: nat, width: nat)
    requires e + 8 <= |enc|
    ensures BlockSpec(buf, enc, e, start, width) == WriteAll(buf, Targets(start, width, BlockColours(enc, e), I32(enc[e + 4..e + 8])))
    ensures forall c :: 0 <= c < 4 ==> 0 <= BlockColours(enc, e)[c] < 0x100_0000
  {
    var cv := enc[e..e + 4];
    assert cv[..2] == enc[e..e + 2] && cv[2..] == enc[e + 2..e + 4];
    PaletteOpaqueFree(I16(cv[..2]), I16(cv[2..]));
  }

  /** A value below 2^24 leaves the top byte of its `<i` form zero. */
  lemma {:induction false} EncodeI32HighByte(v: int)
    requires 0 <= v < 0x100_0000
    ensures EncodeI32(v)[3] == 0
  {
    assert EncodeI32(v) == EncodeU16(v % TWO_16) + EncodeU16(v / TWO_16);
  }

  /** One more block decodes exactly when its 8 bytes are there and its
      last pixel fits. */
  lemma {:induction false} RowNextOk(buf: seq<Byte>, enc: seq<Byte>, e0: nat, d0: nat, width: nat, n: nat, cur: seq<Byte>)
    requires RowSpec(buf, enc, e0, d0, width, n) == (None, cur)
    ensures RowSpec(buf, enc, e0, d0, width, n + 1).0.None? <==>
            e0 + 8 * (n + 1) <= |enc| && Steps(d0, 16 * width + 16, n) + 12 * width + 16 <= |cur|
  {
    var start: nat := Steps(d0, 16 * width + 16, n);
    RowNext(buf, enc, e0, d0, width, n, cur);
    BlockSpecOk(cur, enc, e0 + 8 * n, start, width);
  }

  /** The first `n` blocks decode exactly when the `8 * n` bytes they
      read are there and the last pixel of the last block fits: blocks
      further along the row only ever end further on. */
  lemma {:induction false} RowSpecOk(buf: seq<Byte>, enc: seq<Byte>, e0: nat, d0: nat, width: nat, n: nat)
    ensures RowSpec(buf, enc, e0, d0, width, n).0.None? <==>
            n == 0 || (e0 + 8 * n <= |enc| && Steps(d0, 16 * width + 16, n - 1) + 12 * width + 16 <= |buf|)
    decreases n
  {
    if n > 0 {
      RowSpecOk(buf, enc, e0, d0, width, n - 1);
      var prev := RowSpec(buf, enc, e0, d0, width, n - 1);
      if prev.0.Some? {
        RowStops(buf, enc, e0, d0, width, n - 1, n);
      } else {
        RowNextOk(buf, enc, e0, d0, width, n - 1, prev.1);
      }
    }
  }

  /** `s3tc_decode` fails exactly when there is a block row and the first
      one does not decode: no block, or only a too-short buffer, can
      make a call with no block row fail. */
  lemma {:induction false} DecodeOk(buf: seq<Byte>, enc: seq<Byte>, e0: nat, d0: nat, width: int, height: int)
    ensures var cols := BlockCount(width);
      DecodeSpec(buf, enc, e0, d0, width, height).0.Ok? <==>
      height <= 0 || cols == 0 ||
      (e0 + 8 * cols <= |enc| && Steps(d0, 16 * RowWidth(width) + 16, cols - 1) + 12 * RowWidth(width) + 16 <= |buf|)
  {
    RowSpecOk(buf, enc, e0, d0, RowWidth(width), BlockCount(width));
  }

  /** Only the first block row is decoded: as long as there is one, the
      height changes neither the outcome nor a byte of the buffer. */
  lemma {:induction false} HeightIgnored(buf: seq<Byte>, enc: seq<Byte>, e0: nat, d0: nat, width: int, height: int, height': int)
    requires height > 0 && height' > 0
    ensures DecodeSpec(buf, enc, e0, d0, width, height).0.Ok? == DecodeSpec(buf, enc, e0, d0, width, height').0.Ok?
    ensures DecodeSpec(buf, enc, e0, d0, width, height).1 == DecodeSpec(buf, enc, e0, d0, width, height').1
  {
  }

  /** Block `k` of the row starts `4 * k` pixel rows down and `4 * k`
      pixels in: pixel `j` of it is pixel `(4 * k + j % 4, 4 * k + j / 4)`
      of a `width`-wide image of 4-byte pixels at `d0`. */
  lemma {:induction false} BlockOnDiagonal(d0: nat, width: nat, k: nat, j: nat)
    requires j < 16
    ensures PixelOffset(Steps(d0, 16 * width + 16, k) as nat, width, j) ==
            d0 + 4 * ((4 * k + j / 4) * width + 4 * k + j % 4)
  {
    StepsProduct(d0, 16 * width + 16, k);
    RowStartProduct(Steps(d0, 16 * width + 16, k) as nat, width, j / 4);
    DiagonalSum(d0, width, k, j / 4, j % 4);
  }

  lemma {:induction false} DiagonalSum(d0: nat, width: nat, k: nat, y: nat, x: nat)
    ensures d0 + k * (16 * width + 16) + y * (4 * width) + x * 4 == d0 + 4 * ((4 * k + y) * width + 4 * k + x)
  {
    var kw, yw := k * width, y * width;
    assert k * (16 * width + 16) == 16 * kw + 16 * k;
    assert y * (4 * width) == 4 * yw;
    assert (4 * k + y) * width == 4 * kw + yw;
  }
}
