/** `do_convert` of `h322r16.py`: from a decoded height field it derives
    one RGBA splat mask per detail layer, and the `.raw` file of
    little-endian 16-bit heights written column by column. */
module H32Convert {
  import opened Bytes
  import opened Outcome
  import HeightField

  /** A pixel of a splat mask. */
  datatype Rgba = Rgba(r: Byte, g: Byte, b: Byte, a: Byte)

  /** The colour a new `RGBA` image starts with. */
  const Clear := Rgba(0, 0, 0, 0)

  /** Detail values from this one up paint no layer. */
  const LAYER_LIMIT := 32

  /** Each layer has four channels, one detail value each. */
  const CHANNELS := 4

  /** Channel `c` of a pixel, in `r, g, b, a` order. */
  function Channel(p: Rgba, c: int): Byte
    requires 0 <= c < CHANNELS
  {
    if c == 0 then p.r else if c == 1 then p.g else if c == 2 then p.b else p.a
  }

  /** The pixel a detail value paints: channel `c` of its layer full on and
      every other channel off. */
  function OneHot(c: int): (p: Rgba)
    requires 0 <= c < CHANNELS
    ensures Channel(p, c) == 255
    ensures forall d :: 0 <= d < CHANNELS && d != c ==> Channel(p, d) == 0
  {
    if c == 1 then Rgba(0, 255, 0, 0)
    else if c == 2 then Rgba(0, 0, 255, 0)
    else if c == 3 then Rgba(0, 0, 0, 255)
    else Rgba(255, 0, 0, 0)
  }

  /** `img` has `h` rows of `w` pixels, indexed `img[row][col]`. */
  predicate Shaped<T>(img: seq<seq<T>>, w: nat, h: nat) {
    |img| == h && forall row :: 0 <= row < h ==> |img[row]| == w
  }

  /** A detail value `v` paints layer `k`: it is below the limit and `k`
      is `v // 4`. */
  predicate Paints(v: int, k: int) {
    v < LAYER_LIMIT && v / CHANNELS == k
  }

  /** What the mask of layer `k` holds at a pixel whose detail value is
      `v`. */
  function MaskPixel(v: Byte, k: int): Rgba {
    if Paints(v, k) then OneHot(v % CHANNELS) else Clear
  }

  /** An image of `h` rows of `w` clear pixels. */
  function Blank(w: nat, h: nat): (m: seq<seq<Rgba>>)
    ensures Shaped(m, w, h)
  {
    seq(h, row => seq(w, col => Clear))
  }

  /** The splat masks as a whole: layer `k` exists iff some pixel paints
      it, and then it holds every pixel's `MaskPixel` for `k`. */
  function SplatMasks(detail: seq<seq<Byte>>, w: nat, h: nat): map<int, seq<seq<Rgba>>>
    requires Shaped(detail, w, h)
  {
    MasksBefore(detail, w, h, w, 0)
  }

  /** The loops visit column by column: pixel `(col, row)` is done before
      the visit of `(x, y)`. */
  predicate Visited(col: int, row: int, x: int, y: int) {
    col < x || (col == x && row < y)
  }

  /** Some pixel visited before `(x, y)` paints layer `k`. */
  predicate SelectsBefore(detail: seq<seq<Byte>>, w: nat, h: nat, k: int, x: int, y: int)
    requires Shaped(detail, w, h)
  {
    exists col, row :: 0 <= col < w && 0 <= row < h && Visited(col, row, x, y) && Paints(detail[row][col], k)
  }

  /** The mask of layer `k` once the pixels before `(x, y)` are painted. */
  function LayerBefore(detail: seq<seq<Byte>>, w: nat, h: nat, k: int, x: int, y: int): (m: seq<seq<Rgba>>)
    requires Shaped(detail, w, h)
    ensures Shaped(m, w, h)
  {
    seq(h, row requires 0 <= row < h =>
      seq(w, col requires 0 <= col < w =>
        if Visited(col, row, x, y) then MaskPixel(detail[row][col], k) else Clear))
  }

  /** `splat_maps` at the visit of `(x, y)`. */
  function MasksBefore(detail: seq<seq<Byte>>, w: nat, h: nat, x: int, y: int): map<int, seq<seq<Rgba>>>
    requires Shaped(detail, w, h)
  {
    map k | 0 <= k < LAYER_LIMIT / CHANNELS && SelectsBefore(detail, w, h, k, x, y) :: LayerBefore(detail, w, h, k, x, y)
  }

  /** Lines 136-167: one pixel of the splat loop. */
  method Paint(detail: seq<seq<Byte>>, w: nat, h: nat, x: nat, y: nat, masks: map<int, seq<seq<Rgba>>>)
    returns (next: map<int, seq<seq<Rgba>>>)
    requires Shaped(detail, w, h) && x < w && y < h
    requires masks == MasksBefore(detail, w, h, x, y)
    ensures next == MasksBefore(detail, w, h, x, y + 1)
  {
    var v := detail[y][x];
    var idx := v / CHANNELS;
    if v >= LAYER_LIMIT {
      PaintSkips(detail, w, h, x, y);
      return masks;
    }
    var colour := OneHot(v % CHANNELS);
    var layer := if idx in masks then masks[idx] else Blank(w, h);
    PaintFills(detail, w, h, x, y);
    next := masks[idx := layer[y := layer[y][x := colour]]];
  }

  /** A pixel whose detail value is at or above the limit changes nothing. */
  lemma {:induction false} PaintSkips(detail: seq<seq<Byte>>, w: nat, h: nat, x: nat, y: nat)
    requires Shaped(detail, w, h) && x < w && y < h
    requires detail[y][x] >= LAYER_LIMIT
    ensures MasksBefore(detail, w, h, x, y + 1) == MasksBefore(detail, w, h, x, y)
  {
    PaintStep(detail, w, h, x, y);
    var m, m' := MasksBefore(detail, w, h, x, y), MasksBefore(detail, w, h, x, y + 1);
    forall k
      ensures k in m <==> k in m'
      ensures k in m ==> m[k] == m'[k]
    {
      assert !Paints(detail[y][x], k);
    }
    assert m == m';
  }

  /** Any other pixel lights its channel in its layer, starting that layer
      from a blank image if it is the first to select it. */
  lemma {:induction false} PaintFills(detail: seq<seq<Byte>>, w: nat, h: nat, x: nat, y: nat)
    requires Shaped(detail, w, h) && x < w && y < h
    requires detail[y][x] < LAYER_LIMIT
    ensures
      var v := detail[y][x];
      var masks := MasksBefore(detail, w, h, x, y);
      var layer := if v / CHANNELS in masks then masks[v / CHANNELS] else Blank(w, h);
      MasksBefore(detail, w, h, x, y + 1)
        == masks[v / CHANNELS := layer[y := layer[y][x := OneHot(v % CHANNELS)]]]
  {
    var v := detail[y][x];
    var idx := v / CHANNELS;
    var masks := MasksBefore(detail, w, h, x, y);
    var layer := if idx in masks then masks[idx] else Blank(w, h);
    PaintStep(detail, w, h, x, y);
    var m, m' := masks[idx := layer[y := layer[y][x := OneHot(v % CHANNELS)]]], MasksBefore(detail, w, h, x, y + 1);
    forall k
      ensures k in m <==> k in m'
      ensures k in m ==> m[k] == m'[k]
    {
      if k == idx {
        assert Paints(v, k) && MaskPixel(v, k) == OneHot(v % CHANNELS);
        assert layer == LayerBefore(detail, w, h, idx, x, y);
      } else {
        assert !Paints(v, k);
      }
    }
    assert m == m';
  }

  /** Painting pixel `(x, y)` changes at most that pixel of layer
      `detail[y][x] // 4`, and adds that layer if it had none. */
  lemma {:induction false} PaintStep(detail: seq<seq<Byte>>, w: nat, h: nat, x: nat, y: nat)
    requires Shaped(detail, w, h) && x < w && y < h
    ensures forall k {:trigger SelectsBefore(detail, w, h, k, x, y + 1)} ::
      SelectsBefore(detail, w, h, k, x, y + 1) <==> SelectsBefore(detail, w, h, k, x, y) || Paints(detail[y][x], k)
    ensures forall k {:trigger LayerBefore(detail, w, h, k, x, y + 1)} ::
      var m := LayerBefore(detail, w, h, k, x, y);
      LayerBefore(detail, w, h, k, x, y + 1) == m[y := m[y][x := MaskPixel(detail[y][x], k)]]
    ensures forall k {:trigger LayerBefore(detail, w, h, k, x, y + 1)} ::
      !Paints(detail[y][x], k) ==> LayerBefore(detail, w, h, k, x, y + 1) == LayerBefore(detail, w, h, k, x, y)
    ensures forall k {:trigger LayerBefore(detail, w, h, k, x, y)} ::
      !SelectsBefore(detail, w, h, k, x, y) ==> LayerBefore(detail, w, h, k, x, y) == Blank(w, h)
  {
    forall k
      ensures SelectsBefore(detail, w, h, k, x, y + 1) <==> SelectsBefore(detail, w, h, k, x, y) || Paints(detail[y][x], k)
    {
      if Paints(detail[y][x], k) {
        assert Visited(x, y, x, y + 1);
      }
      if SelectsBefore(detail, w, h, k, x, y + 1) && !Paints(detail[y][x], k) {
        var col, row :| 0 <= col < w && 0 <= row < h && Visited(col, row, x, y + 1) && Paints(detail[row][col], k);
        assert Visited(col, row, x, y);
      }
    }
    forall k
      ensures var m := LayerBefore(detail, w, h, k, x, y);
        LayerBefore(detail, w, h, k, x, y + 1) == m[y := m[y][x := MaskPixel(detail[y][x], k)]]
    {
      var m := LayerBefore(detail, w, h, k, x, y);
      var m' := LayerBefore(detail, w, h, k, x, y + 1);
      forall row | 0 <= row < h
        ensures m'[row] == m[y := m[y][x := MaskPixel(detail[y][x], k)]][row]
      {
      }
    }
    forall k | !Paints(detail[y][x], k)
      ensures LayerBefore(detail, w, h, k, x, y + 1) == LayerBefore(detail, w, h, k, x, y)
    {
      var m := LayerBefore(detail, w, h, k, x, y);
      assert m[y][x := Clear] == m[y];
      assert m[y := m[y]] == m;
    }
    forall k | !SelectsBefore(detail, w, h, k, x, y)
      ensures LayerBefore(detail, w, h, k, x, y) == Blank(w, h)
    {
      var m := LayerBefore(detail, w, h, k, x, y);
      forall row, col | 0 <= row < h && 0 <= col < w
        ensures m[row][col] == Clear
      {
        if Visited(col, row, x, y) && Paints(detail[row][col], k) {
          assert false;
        }
      }
      assert forall row | 0 <= row < h :: m[row] == Blank(w, h)[row];
    }
  }

  /** The end of column `x` is the start of column `x + 1`. */
  lemma {:induction false} ColumnDone(detail: seq<seq<Byte>>, w: nat, h: nat, x: nat)
    requires Shaped(detail, w, h)
    ensures MasksBefore(detail, w, h, x, h) == MasksBefore(detail, w, h, x + 1, 0)
  {
    var masks, masks' := MasksBefore(detail, w, h, x, h), MasksBefore(detail, w, h, x + 1, 0);
    forall k
      ensures SelectsBefore(detail, w, h, k, x, h) == SelectsBefore(detail, w, h, k, x + 1, 0)
      ensures LayerBefore(detail, w, h, k, x, h) == LayerBefore(detail, w, h, k, x + 1, 0)
    {
      var m, m' := LayerBefore(detail, w, h, k, x, h), LayerBefore(detail, w, h, k, x + 1, 0);
      forall row | 0 <= row < h
        ensures m[row] == m'[row]
      {
        assert forall col :: Visited(col, row, x, h) == Visited(col, row, x + 1, 0);
      }
    }
    assert forall k :: k in masks <==> k in masks';
  }

  /** Lines 133-167: the splat loop, `x` over the image's columns outside,
      `y` over its rows inside. */
  method Splat(detail: seq<seq<Byte>>, w: nat, h: nat) returns (masks: map<int, seq<seq<Rgba>>>)
    requires Shaped(detail, w, h)
    ensures masks == SplatMasks(detail, w, h)
  {
    masks := map[];
    assert masks == MasksBefore(detail, w, h, 0, 0);
    var x: nat := 0;
    while x < w
      invariant x <= w
      invariant masks == MasksBefore(detail, w, h, x, 0)
    {
      var y: nat := 0;
      while y < h
        invariant y <= h
        invariant masks == MasksBefore(detail, w, h, x, y)
      {
        masks := Paint(detail, w, h, x, y, masks);
        y := y + 1;
      }
      ColumnDone(detail, w, h, x);
      x := x + 1;
    }
  }

  /** Which channel of a mask pixel is full on, if any. */
  function LitChannel(p: Rgba): (c: Option<int>)
    ensures c.Some? ==> 0 <= c.value < CHANNELS && Channel(p, c.value) == 255
    ensures c.None? ==> forall d :: 0 <= d < CHANNELS ==> Channel(p, d) != 255
  {
    if p.r == 255 then Some(0)
    else if p.g == 255 then Some(1)
    else if p.b == 255 then Some(2)
    else if p.a == 255 then Some(3)
    else None
  }

  /** The pixel at column `col`, row `row`. */
  function PixelOf(img: seq<seq<Rgba>>, w: nat, h: nat, col: nat, row: nat): Rgba
    requires Shaped(img, w, h) && col < w && row < h
  {
    img[row][col]
  }

  /** Reading the masks back at one pixel: `4 * k + c` for the first layer
      `k`, from `k` on, whose pixel has channel `c` lit. */
  function Unsplat(masks: map<int, seq<seq<Rgba>>>, w: nat, h: nat, col: nat, row: nat, k: nat): Option<int>
    requires forall j :: j in masks ==> Shaped(masks[j], w, h)
    requires col < w && row < h
    decreases LAYER_LIMIT / CHANNELS - k
  {
    if k >= LAYER_LIMIT / CHANNELS then None
    else if k in masks && LitChannel(PixelOf(masks[k], w, h, col, row)).Some? then
      Some(CHANNELS * k + LitChannel(PixelOf(masks[k], w, h, col, row)).value)
    else Unsplat(masks, w, h, col, row, k + 1)
  }

  /** Layer `k` is among the splat masks iff some pixel paints it; every
      such layer is a full `w` by `h` image holding, at each pixel, the
      one-hot colour of its detail value if that value paints `k`, and
      clear otherwise. */
  lemma {:induction false} SplatLayers(detail: seq<seq<Byte>>, w: nat, h: nat, k: int)
    requires Shaped(detail, w, h)
    ensures k in SplatMasks(detail, w, h) <==>
      exists col, row :: 0 <= col < w && 0 <= row < h && Paints(detail[row][col], k)
    ensures k in SplatMasks(detail, w, h) ==>
      && 0 <= k < LAYER_LIMIT / CHANNELS
      && Shaped(SplatMasks(detail, w, h)[k], w, h)
      && forall col, row :: 0 <= col < w && 0 <= row < h ==>
           SplatMasks(detail, w, h)[k][row][col] == MaskPixel(detail[row][col], k)
  {
    if exists col, row :: 0 <= col < w && 0 <= row < h && Paints(detail[row][col], k) {
      var col, row :| 0 <= col < w && 0 <= row < h && Paints(detail[row][col], k);
      assert Visited(col, row, w, 0);
    }
  }

  /** The masks lose nothing below the limit: at every pixel the first lit
      channel, across the layers, spells out its detail value, and a pixel
      at or above the limit is lit in no layer. */
  lemma {:induction false} SplatRoundTrip(detail: seq<seq<Byte>>, w: nat, h: nat, col: nat, row: nat)
    requires Shaped(detail, w, h) && col < w && row < h
    ensures forall j :: j in SplatMasks(detail, w, h) ==> Shaped(SplatMasks(detail, w, h)[j], w, h)
    ensures Unsplat(SplatMasks(detail, w, h), w, h, col, row, 0)
      == if detail[row][col] < LAYER_LIMIT then Some(detail[row][col]) else None
  {
    forall j | j in SplatMasks(detail, w, h)
      ensures Shaped(SplatMasks(detail, w, h)[j], w, h)
    {
      SplatLayers(detail, w, h, j);
    }
    UnsplatFrom(detail, w, h, col, row, 0);
  }

  lemma {:induction false} UnsplatFrom(detail: seq<seq<Byte>>, w: nat, h: nat, col: nat, row: nat, k: nat)
    requires Shaped(detail, w, h) && col < w && row < h
    requires forall j :: j in SplatMasks(detail, w, h) ==> Shaped(SplatMasks(detail, w, h)[j], w, h)
    ensures
      var v := detail[row][col];
      Unsplat(SplatMasks(detail, w, h), w, h, col, row, k)
        == if v < LAYER_LIMIT && v / CHANNELS >= k then Some(v) else None
    decreases LAYER_LIMIT / CHANNELS - k
  {
    var v := detail[row][col];
    var masks := SplatMasks(detail, w, h);
    if k < LAYER_LIMIT / CHANNELS {
      SplatLayers(detail, w, h, k);
      if Paints(v, k) {
        assert k in masks;
        assert LitChannel(PixelOf(masks[k], w, h, col, row)) == Some(v % CHANNELS);
      } else {
        assert k in masks ==> PixelOf(masks[k], w, h, col, row) == Clear;
        UnsplatFrom(detail, w, h, col, row, k + 1);
      }
    }
  }

  /** Column `x` of the raw file: `data[y * x2 + x]` for each `y`. */
  function RawColumn(data: seq<Word16>, x2: nat, y2: nat, x: nat): (c: seq<Word16>)
    requires |data| == x2 * y2 && x < x2
    ensures |c| == y2
  {
    seq(y2, y requires 0 <= y < y2 => HeightField.GridIndex(y2, x2, y, x); data[y * x2 + x])
  }

  /** The columns before `x`, one after the other: what the writer has
      emitted at the start of column `x`. */
  function RawColumns(data: seq<Word16>, x2: nat, y2: nat, x: nat): (t: seq<Word16>)
    requires |data| == x2 * y2 && x <= x2
    ensures |t| == x * y2
  {
    if x == 0 then []
    else
      assert (x - 1) * y2 + y2 == x * y2;
      RawColumns(data, x2, y2, x - 1) + RawColumn(data, x2, y2, x - 1)
  }

  /** The samples in the order the writer emits them. */
  function Transposed(data: seq<Word16>, x2: nat, y2: nat): (t: seq<Word16>)
    requires |data| == x2 * y2
    ensures |t| == x2 * y2
  {
    RawColumns(data, x2, y2, x2)
  }

  /** Position `x * y2 + y` of the raw order holds `data[y * x2 + x]`. */
  lemma {:induction false} RawColumnsAt(data: seq<Word16>, x2: nat, y2: nat, x: nat, i: nat, j: nat)
    requires |data| == x2 * y2 && x <= x2 && i < x && j < y2
    ensures i * y2 + j < x * y2 && j * x2 + i < x2 * y2
    ensures RawColumns(data, x2, y2, x)[i * y2 + j] == data[j * x2 + i]
  {
    var prev := RawColumns(data, x2, y2, x - 1);
    var k := i * y2 + j;
    HeightField.GridIndex(x, y2, i, j);
    HeightField.GridIndex(y2, x2, j, i);
    assert RawColumns(data, x2, y2, x) == prev + RawColumn(data, x2, y2, x - 1);
    if i < x - 1 {
      RawColumnsAt(data, x2, y2, x - 1, i, j);
      assert k < |prev|;
    } else {
      assert k == |prev| + j;
    }
  }

  /** The writer's order as a map of positions: sample `(x, y)` of an
      `x2` by `y2` grid is written from index `y * x2 + x`. */
  lemma {:induction false} TransposedAt(data: seq<Word16>, x2: nat, y2: nat, x: nat, y: nat)
    requires |data| == x2 * y2 && x < x2 && y < y2
    ensures x * y2 + y < x2 * y2 && y * x2 + x < x2 * y2
    ensures Transposed(data, x2, y2)[x * y2 + y] == data[y * x2 + x]
  {
    RawColumnsAt(data, x2, y2, x2, x, y);
  }

  /** Writing in the raw order twice, with the sides swapped the second
      time, gives the samples back: the order is a bijection on
      positions. */
  lemma {:induction false} TransposeInvolution(data: seq<Word16>, x2: nat, y2: nat)
    requires |data| == x2 * y2
    ensures |Transposed(data, x2, y2)| == y2 * x2
    ensures Transposed(Transposed(data, x2, y2), y2, x2) == data
  {
    var t := Transposed(data, x2, y2);
    var u := Transposed(t, y2, x2);
    forall k | 0 <= k < |data|
      ensures u[k] == data[k]
    {
      var a: nat, b: nat := HeightField.GridCell(y2, x2, k);
      TransposedAt(t, y2, x2, a, b);
      TransposedAt(data, x2, y2, b, a);
    }
  }

  /** The little-endian `<H` encodings of a list of heights, one after the
      other. */
  function EncodeHeights(hs: seq<Word16>): (s: seq<Byte>)
    ensures |s| == 2 * |hs|
  {
    if hs == [] then [] else EncodeHeights(hs[..|hs| - 1]) + EncodeU16(hs[|hs| - 1])
  }

  /** The `k`-th two-byte group of `s` read as an `<H` height. */
  function HeightAt(s: seq<Byte>, k: nat): Word16
    requires 2 * k + 2 <= |s|
  {
    U16(s[2 * k .. 2 * k + 2])
  }

  /** Each height of an encoded list sits in its own two-byte group. */
  lemma {:induction false} EncodeHeightsAt(hs: seq<Word16>, k: nat)
    requires k < |hs|
    ensures EncodeHeights(hs)[2 * k .. 2 * k + 2] == EncodeU16(hs[k])
    ensures HeightAt(EncodeHeights(hs), k) == hs[k]
  {
    var n := |hs| - 1;
    var prefix := EncodeHeights(hs[..n]);
    assert EncodeHeights(hs) == prefix + EncodeU16(hs[n]);
    if k < n {
      EncodeHeightsAt(hs[..n], k);
      assert EncodeHeights(hs)[2 * k .. 2 * k + 2] == prefix[2 * k .. 2 * k + 2];
    } else {
      assert EncodeHeights(hs)[2 * k .. 2 * k + 2] == EncodeU16(hs[n]);
    }
    U16RoundTrip(hs[k]);
  }

  /** The heights of a raw file of even length. */
  function DecodeHeights(s: seq<Byte>): (hs: seq<Word16>)
    requires |s| % 2 == 0
    ensures |hs| == |s| / 2
    ensures forall k :: 0 <= k < |hs| ==> hs[k] == HeightAt(s, k)
  {
    seq(|s| / 2, k requires 0 <= k < |s| / 2 => HeightAt(s, k))
  }

  /** Reading a raw file back gives the heights that were written. */
  lemma {:induction false} HeightsRoundTrip(hs: seq<Word16>)
    ensures DecodeHeights(EncodeHeights(hs)) == hs
  {
    forall k | 0 <= k < |hs|
      ensures DecodeHeights(EncodeHeights(hs))[k] == hs[k]
    {
      EncodeHeightsAt(hs, k);
    }
  }

  /** Encoding distributes over concatenation. */
  lemma {:induction false} EncodeHeightsAppend(a: seq<Word16>, b: seq<Word16>)
    ensures EncodeHeights(a + b) == EncodeHeights(a) + EncodeHeights(b)
    decreases |b|
  {
    if b == [] {
      assert a + b == a;
    } else {
      var init := b[..|b| - 1];
      assert (a + b)[..|a + b| - 1] == a + init;
      EncodeHeightsAppend(a, init);
    }
  }

  /** Lines 179-182: the raw writer, `x` outside and `y` inside, emitting
      `data[y * x2 + x]` as `<H`. */
  method WriteRaw(data: seq<Word16>, x2: nat, y2: nat) returns (out: seq<Byte>)
    requires |data| == x2 * y2
    ensures out == RawFile(data, x2, y2)
  {
    out := [];
    var x: nat := 0;
    while x < x2
      invariant x <= x2
      invariant out == EncodeHeights(RawColumns(data, x2, y2, x))
    {
      var column := WriteColumn(data, x2, y2, x);
      EncodeHeightsAppend(RawColumns(data, x2, y2, x), RawColumn(data, x2, y2, x));
      out := out + column;
      x := x + 1;
    }
  }

  /** Lines 181-182: the inner loop of the writer, for column `x`. */
  method WriteColumn(data: seq<Word16>, x2: nat, y2: nat, x: nat) returns (out: seq<Byte>)
    requires |data| == x2 * y2 && x < x2
    ensures out == EncodeHeights(RawColumn(data, x2, y2, x))
  {
    ghost var column := RawColumn(data, x2, y2, x);
    out := [];
    var y: nat := 0;
    while y < y2
      invariant y <= y2
      invariant out == EncodeHeights(column[..y])
    {
      HeightField.GridIndex(y2, x2, y, x);
      var v := data[y * x2 + x];
      assert column[..y + 1] == column[..y] + [v];
      assert (column[..y] + [v])[..y] == column[..y];
      out := out + EncodeU16(v);
      y := y + 1;
    }
    assert column[..y2] == column;
  }

  /** The bytes of the raw file for `data` on an `x2` by `y2` grid. */
  function RawFile(data: seq<Word16>, x2: nat, y2: nat): (out: seq<Byte>)
    requires |data| == x2 * y2
    ensures |out| == 2 * (x2 * y2)
  {
    EncodeHeights(Transposed(data, x2, y2))
  }

  /** A read square grid comes out of the writer transposed: raw position
      `(x, y)` holds the height of sample `(y, x)`, which is zero in the
      padding and `b | g << 8` of its triple otherwise. Reads of any other
      shape fail, so this covers every raw file written. */
  lemma {:induction false} RawIsTranspose(g: HeightField.Grid, file: seq<Byte>, x: nat, y: nat)
    requires g.Valid() && HeightField.FirstFail(g, |file|, 0, 0).None?
    requires x < g.x2 && y < g.y2
    ensures x * g.y2 + y < g.x2 * g.y2
    ensures HeightAt(RawFile(HeightField.Samples(g, file), g.x2, g.y2), x * g.y2 + y)
      == HeightField.SampleAt(g, file, y, x)
  {
    HeightField.ReadSucceeds(g, |file|);
    assert g.x2 == g.y2;
    var data := HeightField.Samples(g, file);
    TransposedAt(data, g.x2, g.y2, x, y);
    EncodeHeightsAt(Transposed(data, g.x2, g.y2), x * g.y2 + y);
    HeightField.RowsAt(g, file, g.x2, y, x);
  }

  /** What `do_convert` produces, short of the image files: the splat
      masks and, when there are samples, the raw file. */
  datatype Converted = Converted(masks: map<int, seq<seq<Rgba>>>, raw: Option<seq<Byte>>)

  /** Lines 128-182, with the rotations and saves left out. */
  method DoConvert(file: seq<Byte>, width: int, height: int, forUnity: bool) returns (r: Result<Converted>)
    ensures HeightField.Setup(width, height, forUnity).Err? ==> r == Err(HeightField.Setup(width, height, forUnity).error)
    ensures HeightField.Setup(width, height, forUnity).Ok? ==>
      var g := HeightField.Setup(width, height, forUnity).value;
      match HeightField.FirstFail(g, |file|, 0, 0)
      case Some(e) => r == Err(e)
      case None =>
        && Shaped(HeightField.Detail(g, file), g.ImageWidth(), g.ImageHeight())
        && r == Ok(Converted(
             SplatMasks(HeightField.Detail(g, file), g.ImageWidth(), g.ImageHeight()),
             if g.x2 * g.y2 > 0 then Some(RawFile(HeightField.Samples(g, file), g.x2, g.y2))
             else None))
  {
    var d :- HeightField.ReadH32(file, width, height, forUnity);
    var w: nat := if forUnity then d.x2 - 1 else d.x2;
    var h: nat := if forUnity then d.y2 - 1 else d.y2;
    var masks := Splat(d.detail, w, h);
    var raw := None;
    if |d.data| > 0 {
      var out := WriteRaw(d.data, d.x2, d.y2);
      raw := Some(out);
    }
    return Ok(Converted(masks, raw));
  }
}
