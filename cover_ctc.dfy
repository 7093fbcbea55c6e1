/** `CoverCTC`: a cover file holds a little-endian `int` followed by DXT1
    mip chains of 64×64 tiles. `parse` copies (or decodes) one chain into
    `_datas`; `parse_tile` cuts the file into 257 DDS files, each a
    default header followed by one tile's worth of bytes. */
module CoverCtc {
  import opened Bytes
  import opened Outcome
  import opened Reader
  import opened Packing
  import opened DdsHeader
  import opened DxtSize
  import opened S3tc
  import opened S3tcLaws
  import opened IntLog

  /** `1024 >> 4`: the side both `parse` and `parse_tile` settle on. */
  const TILE_SIDE: int := 1024 / 16

  /** The number of tiles `parse_tile` writes. */
  const TILE_COUNT: nat := 257

  /** The bytes a DDS file of `parse_tile` holds after the texture data. */
  const TRAILER: nat := 5

  /** `int(max(math.log2(w), math.log2(h))) + 1` (lines 254 and 334): a side
      below 1 is outside the domain of `log2`. */
  function MipCount(w: int, h: int): (r: Result<int>)
    ensures r.Err? <==> w < 1 || h < 1
    ensures r.Err? ==> r.error == MathDomain
  {
    if w < 1 || h < 1 then Err(MathDomain)
    else Ok(Log2Floor(if w >= h then w else h) + 1)
  }

  /** The mip count is the length of the whole chain: a walk of `n` levels
      from `(w, h)` visits `min(n, count)` of them, so the walk of `count`
      levels ends at 1×1 and no longer walk goes further. */
  lemma {:induction false} MipCountIsChainLength(n: nat, w: int, h: int)
    requires w >= 0 && h >= 0 && !(w == 0 && h == 0)
    ensures var count := Log2Floor(if w >= h then w else h) + 1;
      |MipLevels(n, w, h)| == if n <= count then n else count
    decreases n
  {
    if n > 0 {
      var w1 := if w == 0 then 1 else w;
      var h1 := if h == 0 then 1 else h;
      var m := if w >= h then w else h;
      assert MipLevels(n, w, h) == [(w1, h1)] + MipLevels(n - 1, w1 / 2, h1 / 2);
      if m > 1 {
        assert (if w1 / 2 >= h1 / 2 then w1 / 2 else h1 / 2) == m / 2;
        MipCountIsChainLength(n - 1, w1 / 2, h1 / 2);
      } else {
        assert MipLevels(n - 1, w1 / 2, h1 / 2) == [];
      }
    }
  }

  /** The tile side gives seven levels, 64 down to 1. */
  lemma {:induction false} MipCountTile()
    ensures MipCount(TILE_SIDE, TILE_SIDE) == Ok(7)
  {
    assert Log2Floor(64) == 6 by {
      assert Log2Floor(1) == 0;
      assert Log2Floor(2) == 1;
      assert Log2Floor(4) == 2;
      assert Log2Floor(8) == 3;
      assert Log2Floor(16) == 4;
      assert Log2Floor(32) == 5;
    }
  }

  /** The level size of lines 279 and 300 (`block_size` 8) for a level the
      walk visits, as the whole number of bytes it comes to. */
  function TileLevelSize(w: int, h: int): (size: nat)
    requires w >= 1 && h >= 1
  {
    var area: nat := (w + 3) * (h + 3);
    area * 8 / 16
  }

  /** That whole number is exactly what `int` makes of the float
      expression, and never below the level's DXT1 block count. */
  lemma {:induction false} TileLevelSizeExact(w: int, h: int)
    requires w >= 1 && h >= 1
    ensures TileLevelSize(w, h) == LevelSize(w, h, 8)
    ensures TileLevelSize(w, h) >= BlockCountSize(w, h, 8)
  {
    LevelSizeExact(w, h, 8);
    assert (w + 3) * (h + 3) * 8 == ((w + 3) * (h + 3)) * 8;
  }

  /** `stride * h` (lines 304 and 309): the bytes a level takes once
      decoded to four bytes a pixel. */
  function DecodedSize(w: int, h: int): (size: nat)
    requires w >= 1 && h >= 1
  {
    var stride: nat := w * 4;
    stride * h
  }

  /** `pack_into('<%ds' % size, buf, d, dd)`: `dd` cut or zero-filled to
      `size` bytes at `d`, or `struct.error` when that runs past the end. */
  function StoreStr(buf: seq<Byte>, d: nat, dd: seq<Byte>, size: nat): (r: (Option<Error>, seq<Byte>))
    ensures |r.1| == |buf|
  {
    if d + size > |buf| then (Some(OutOfBuffer), buf) else (None, Splice(buf, d, PadTo(dd, size)))
  }

  /** `StoreStr` is `pack_into` with that one field. */
  lemma {:induction false} PackStr(buf: seq<Byte>, d: nat, dd: seq<Byte>, size: nat)
    ensures var p := PackSpec([StrField(dd, size)], buf, d);
      StoreStr(buf, d, dd, size) == (if p.0.Err? then Some(p.0.error) else None, p.1)
  {
    SingleCall(StrField(dd, size));
  }

  /** One level of the second loop of `parse` without `--decode` (lines
      311-316): `size` bytes read at `e` (`unpack_from('<%ds')`) and stored
      at `d` (`pack_into('<%ds')`). */
  function CopyLevelSpec(buf: seq<Byte>, data: seq<Byte>, e: nat, d: nat, w: int, h: int): (r: (Option<Error>, seq<Byte>))
    requires w >= 1 && h >= 1
    ensures |r.1| == |buf|
  {
    var size := TileLevelSize(w, h);
    match Read(data, e, size)
    case Err(err) => (Some(err), buf)
    case Ok(dd) => StoreStr(buf, d, dd, size)
  }

  /** One level with `--decode` (lines 305-309): `s3tc_decode` into the
      buffer at `d`, which decodes the first block row when there is one;
      the offsets it prints are not used. */
  function DecodeLevelSpec(buf: seq<Byte>, data: seq<Byte>, e: nat, d: nat, w: int, h: int): (r: (Option<Error>, seq<Byte>))
    ensures |r.1| == |buf|
  {
    if BlockCount(h) == 0 then (None, buf) else RowSpec(buf, data, e, d, RowWidth(w), BlockCount(w))
  }

  /** The levels a walk visits have both sides at least 1. */
  predicate Visited(ls: seq<(int, int)>) {
    forall k :: 0 <= k < |ls| ==> ls[k].0 >= 1 && ls[k].1 >= 1
  }

  /** The second loop of `parse` (lines 293-319) over the levels `ls` it
      visits, from encode offset `e` and decode offset `d`. */
  function ConvertSpec(ls: seq<(int, int)>, data: seq<Byte>, buf: seq<Byte>, e: nat, d: nat, decoded: bool)
    : (r: (Option<Error>, seq<Byte>))
    requires Visited(ls)
    ensures |r.1| == |buf|
  {
    if decoded then DecodeWalk(ls, data, buf, e, d) else CopyWalk(ls, data, buf, e, d)
  }

  /** That loop without `--decode`: each level, then, unless it raised, the
      rest of the levels with both offsets moved by the level size. */
  function CopyWalk(ls: seq<(int, int)>, data: seq<Byte>, buf: seq<Byte>, e: nat, d: nat)
    : (r: (Option<Error>, seq<Byte>))
    requires Visited(ls)
    ensures |r.1| == |buf|
    decreases |ls|
  {
    if ls == [] then (None, buf)
    else
      var size := TileLevelSize(ls[0].0, ls[0].1);
      var step := CopyLevelSpec(buf, data, e, d, ls[0].0, ls[0].1);
      if step.0.Some? then step
      else CopyWalk(ls[1..], data, step.1, e + size, d + size)
  }

  /** The same loop with `--decode`: the encode offset moves by the level
      size and the decode offset by the decoded level, `stride * h`. */
  function DecodeWalk(ls: seq<(int, int)>, data: seq<Byte>, buf: seq<Byte>, e: nat, d: nat)
    : (r: (Option<Error>, seq<Byte>))
    requires Visited(ls)
    ensures |r.1| == |buf|
    decreases |ls|
  {
    if ls == [] then (None, buf)
    else
      var step := DecodeLevelSpec(buf, data, e, d, ls[0].0, ls[0].1);
      if step.0.Some? then step
      else DecodeWalk(ls[1..], data, step.1, e + TileLevelSize(ls[0].0, ls[0].1), d + DecodedSize(ls[0].0, ls[0].1))
  }

  /** The first loop of `parse` (lines 270-282): the length `_datas` is
      allocated with, decoded (`h * w * 4`) or as stored. */
  method DataLength(count: int, w0: int, h0: int, decoded: bool) returns (dataLen: int)
    ensures dataLen == DataLen(MipLevels(RangeLength(count), w0, h0), 8, decoded)
  {
    dataLen := 0;
    var w, h := w0, h0;
    var i := 0;
    while i < count
      invariant 0 <= i <= RangeLength(count)
      invariant dataLen + DataLen(MipLevels(RangeLength(count) - i, w, h), 8, decoded) ==
                DataLen(MipLevels(RangeLength(count), w0, h0), 8, decoded)
    {
      if w == 0 && h == 0 {
        break;
      }
      if w == 0 {
        w := 1;
      }
      if h == 0 {
        h := 1;
      }
      ghost var rest := MipLevels(RangeLength(count) - i - 1, w / 2, h / 2);
      assert MipLevels(RangeLength(count) - i, w, h) == [(w, h)] + rest;
      assert ([(w, h)] + rest)[1..] == rest;
      if decoded {
        dataLen := dataLen + h * w * 4;
      } else {
        dataLen := dataLen + LevelSize(w, h, 8);
      }
      w := w / 2;
      h := h / 2;
      i := i + 1;
    }
  }

  /** One level of the second loop of `parse` without `--decode`. */
  method CopyLevel(data: seq<Byte>, datas: array<Byte>, e: nat, d: nat, w: int, h: int)
    returns (err: Option<Error>)
    requires w >= 1 && h >= 1
    modifies datas
    ensures (err, datas[..]) == CopyLevelSpec(old(datas[..]), data, e, d, w, h)
  {
    var size := TileLevelSize(w, h);
    var dd := Read(data, e, size);
    if dd.Err? {
      return Some(dd.error);
    }
    var p := PackInto([StrField(dd.value, size)], datas, d);
    PackStr(old(datas[..]), d, dd.value, size);
    err := if p.Err? then Some(p.error) else None;
  }

  /** One level with `--decode`. */
  method DecodeLevel(data: seq<Byte>, datas: array<Byte>, e: nat, d: nat, w: int, h: int)
    returns (err: Option<Error>)
    modifies datas
    ensures (err, datas[..]) == DecodeLevelSpec(old(datas[..]), data, e, d, w, h)
  {
    var r := Decode(data, e, datas, d, w, h, 1);
    err := if r.Err? then Some(r.error) else None;
    assert (r, datas[..]) == DecodeSpec(old(datas[..]), data, e, d, w, h);
  }

  /** The second loop of `parse` (lines 290-319), from encode offset `e0`
      and decode offset 0, over the levels the first loop counted. */
  method ConvertLevels(data: seq<Byte>, datas: array<Byte>, count: int, w0: int, h0: int, e0: nat, decoded: bool)
    returns (err: Option<Error>)
    requires w0 >= 0 && h0 >= 0
    modifies datas
    ensures Visited(MipLevels(RangeLength(count), w0, h0))
    ensures (err, datas[..]) == ConvertSpec(MipLevels(RangeLength(count), w0, h0), data, old(datas[..]), e0, 0, decoded)
  {
    MipLevelsShape(RangeLength(count), w0, h0);
    var w, h := w0, h0;
    var encodeOffset: nat, decodeOffset: nat := e0, 0;
    var i := 0;
    while i < count
      invariant 0 <= i <= RangeLength(count) && w >= 0 && h >= 0
      invariant Visited(MipLevels(RangeLength(count) - i, w, h))
      invariant ConvertSpec(MipLevels(RangeLength(count) - i, w, h), data, datas[..], encodeOffset, decodeOffset, decoded) ==
                ConvertSpec(MipLevels(RangeLength(count), w0, h0), data, old(datas[..]), e0, 0, decoded)
    {
      if w == 0 && h == 0 {
        break;
      }
      ghost var ls := MipLevels(RangeLength(count) - i, w, h);
      if w == 0 {
        w := 1;
      }
      if h == 0 {
        h := 1;
      }
      ghost var rest := MipLevels(RangeLength(count) - i - 1, w / 2, h / 2);
      assert ls == [(w, h)] + rest;
      assert ls[1..] == rest;
      err, encodeOffset, decodeOffset := ConvertAt(data, datas, ls, w, h, encodeOffset, decodeOffset, decoded);
      if err.Some? {
        return;
      }
      w := w / 2;
      h := h / 2;
      i := i + 1;
    }
    return None;
  }

  /** The body of that loop once the sides are clamped (lines 300-316) at
      the first of the levels `ls`: one level, then the encode offset moves
      by the level size and the decode offset by `stride * h` or by the
      level size. */
  method ConvertAt(data: seq<Byte>, datas: array<Byte>, ghost ls: seq<(int, int)>, w: int, h: int, e: nat, d: nat, decoded: bool)
    returns (err: Option<Error>, e': nat, d': nat)
    requires Visited(ls) && ls != [] && ls[0] == (w, h)
    modifies datas
    ensures Visited(ls[1..])
    ensures ConvertSpec(ls, data, old(datas[..]), e, d, decoded) ==
            if err.Some? then (err, datas[..]) else ConvertSpec(ls[1..], data, datas[..], e', d', decoded)
  {
    ConvertSpecStep(ls, data, datas[..], e, d, decoded);
    e', d' := e, d;
    var size := TileLevelSize(w, h);
    if decoded {
      err := DecodeLevel(data, datas, e, d, w, h);
      if err.Some? {
        return;
      }
      d' := d + DecodedSize(w, h);
    } else {
      err := CopyLevel(data, datas, e, d, w, h);
      if err.Some? {
        return;
      }
      d' := d + size;
    }
    e' := e + size;
  }

  /** One level of the walk: an error ends it, otherwise the rest of the
      levels go on from the bytes it wrote. */
  lemma {:induction false} ConvertSpecStep(ls: seq<(int, int)>, data: seq<Byte>, buf: seq<Byte>, e: nat, d: nat, decoded: bool)
    requires Visited(ls) && ls != []
    ensures Visited(ls[1..])
    ensures var w, h := ls[0].0, ls[0].1;
      var step := if decoded then DecodeLevelSpec(buf, data, e, d, w, h) else CopyLevelSpec(buf, data, e, d, w, h);
      var d' := d + if decoded then DecodedSize(w, h) else TileLevelSize(w, h);
      ConvertSpec(ls, data, buf, e, d, decoded) ==
        if step.0.Some? then step else ConvertSpec(ls[1..], data, step.1, e + TileLevelSize(w, h), d', decoded)
  {
    if decoded {
      DecodeWalkStep(ls, data, buf, e, d);
    } else {
      CopyWalkUnfold(ls, data, buf, e, d);
    }
  }

  /** One level of the walk without `--decode`, as `CopyWalk` states it. */
  lemma {:induction false} CopyWalkUnfold(ls: seq<(int, int)>, data: seq<Byte>, buf: seq<Byte>, e: nat, d: nat)
    requires Visited(ls) && ls != []
    ensures var w, h := ls[0].0, ls[0].1;
      var step := CopyLevelSpec(buf, data, e, d, w, h);
      (step.0.Some? ==> CopyWalk(ls, data, buf, e, d) == step) &&
      (step.0.None? ==>
        CopyWalk(ls, data, buf, e, d) == CopyWalk(ls[1..], data, step.1, e + TileLevelSize(w, h), d + TileLevelSize(w, h)))
  {
  }

  /** How many bytes the 64×64 chain of seven levels takes in `_datas`:
      the length `parse` allocates and `parse_tile` gives every tile. */
  function ChainBytes(decoded: bool): nat {
    if decoded then 21844 else 3140
  }

  /** `ChainBytes` is what the size loops compute for the 64×64 chain. */
  lemma ChainBytesIsDataLen(decoded: bool)
    ensures ChainBytes(decoded) == DataLen(MipLevels(7, TILE_SIDE, TILE_SIDE), 8, decoded)
  {
    Sizes64();
  }

  /** What `parse` (lines 234-319) comes to for a file holding `data`: the
      error it raises, if any, and the contents of the `_datas` it
      allocated, if it got that far. */
  function ParseSpec(data: seq<Byte>, decoded: bool): (r: (Option<Error>, Option<seq<Byte>>))
  {
    match ReadI32(data, 0)
    case Err(err) => (Some(err), None)
    case Ok(magic) =>
      if magic != 64 then (Some(AssertionFailed), None)
      else
        MipLevelsShape(7, TILE_SIDE, TILE_SIDE);
        var c := ConvertSpec(MipLevels(7, TILE_SIDE, TILE_SIDE), data, Zeros(ChainBytes(decoded)), 4, 0, decoded);
        (c.0, Some(c.1))
  }

  /** `f.read(n)` at position `pos`: at most `n` bytes, fewer at the end of
      the file. */
  function ReadUpTo(data: seq<Byte>, pos: nat, n: nat): (r: seq<Byte>)
    requires pos <= |data|
    ensures |r| == if pos + n <= |data| then n else |data| - pos
    ensures r == data[pos..pos + |r|]
  {
    if pos + n <= |data| then data[pos..pos + n] else data[pos..]
  }

  /** The bytes `parse_tile` reads for each tile: `data_len - 4`. */
  function ChunkSize(): nat {
    ChainBytes(false) - 4
  }

  /** Where the read for tile `i` starts: after the leading `int` and `i`
      earlier reads, or at the end of the file. */
  function ChunkStart(data: seq<Byte>, i: nat): (p: nat)
    requires |data| >= 4
    ensures 4 <= p <= |data|
  {
    if 4 + i * ChunkSize() <= |data| then 4 + i * ChunkSize() else |data|
  }

  /** The bytes tile `i` gets from the file. */
  function Chunk(data: seq<Byte>, i: nat): seq<Byte>
    requires |data| >= 4
  {
    data[ChunkStart(data, i)..ChunkStart(data, i + 1)]
  }

  /** One DDS file of `parse_tile` (lines 359-363): the header stored as
      `<128s`, the tile bytes as `<%ds` of `data_len`, and five zero bytes. */
  function Tile(header: seq<Byte>, dd: seq<Byte>): seq<Byte> {
    PadTo(header, HEADER_SIZE) + PadTo(dd, ChainBytes(false)) + Zeros(TRAILER)
  }

  /** The header every tile starts with: the default header of a 64×64
      texture with seven mip levels. */
  function TileHeader(): seq<Byte> {
    Layout(TILE_SIDE, TILE_SIDE, 7) + Zeros(4)
  }

  /** The files `parse_tile` writes for a file holding `data`. */
  function Tiles(data: seq<Byte>): (ts: seq<seq<Byte>>)
    requires |data| >= 4
    ensures |ts| == TILE_COUNT
  {
    seq(TILE_COUNT, i requires 0 <= i < TILE_COUNT => Tile(TileHeader(), Chunk(data, i)))
  }

  class CoverCtc {
    var width: int
    var height: int
    var mipmapCount: int
    var decodeNeeded: bool
    var datas: array?<Byte>
    var headers: array<Byte>

    /** `__init__` (lines 26-27) over the class defaults of lines 18-24;
        `decodeNeeded` is the `--decode` option `parse_arguments` reads. */
    constructor(decodeNeeded: bool)
      ensures width == 0 && height == 0 && mipmapCount == 0 && this.decodeNeeded == decodeNeeded && datas == null
      ensures fresh(headers) && headers[..] == Zeros(HEADER_SIZE)
    {
      width, height, mipmapCount := 0, 0, 0;
      this.decodeNeeded := decodeNeeded;
      datas := null;
      var zeroed := new Byte[HEADER_SIZE](_ => 0);
      assert zeroed[..] == Zeros(HEADER_SIZE);
      headers := zeroed;
    }

    /** `_get_default_header` (lines 29-44): the header packed into a fresh
        128-byte buffer, or `struct.error` when the width, the height or the
        mip count is outside the `<i` range. */
    method DefaultHeader() returns (r: Result<seq<Byte>>)
      ensures r.Ok? <==> FitsI32(width, height, mipmapCount)
      ensures r.Err? ==> r.error == BadFormat
      ensures r.Ok? ==> r.value == Layout(width, height, mipmapCount) + Zeros(4)
    {
      var buffer := new Byte[HEADER_SIZE](_ => 0);
      assert buffer[..] == Zeros(HEADER_SIZE);
      var packed := PackHeader(buffer, width, height, mipmapCount);
      DefaultHeaderBytes(width, height, mipmapCount);
      if packed.Err? {
        return Err(packed.error);
      }
      r := Ok(buffer[..]);
    }

    /** `parse` (lines 234-319) on a file holding `data`. */
    method Parse(data: seq<Byte>) returns (err: Option<Error>)
      modifies this
      ensures width == TILE_SIDE && height == TILE_SIDE && mipmapCount == 7
      ensures decodeNeeded == old(decodeNeeded) && headers == old(headers)
      ensures err == ParseSpec(data, decodeNeeded).0
      ensures ParseSpec(data, decodeNeeded).1.None? ==> datas == old(datas)
      ensures ParseSpec(data, decodeNeeded).1.Some? ==>
        datas != null && fresh(datas) && datas[..] == ParseSpec(data, decodeNeeded).1.value
    {
      width := 1024;
      height := 1024;
      width := TILE_SIDE;
      height := TILE_SIDE;
      MipCountTile();
      var mipmaps := MipCount(width, height).value;
      mipmapCount := mipmaps;
      var magic := ReadI32(data, 0);
      if magic.Err? {
        return Some(magic.error);
      }
      if magic.value != 64 {
        return Some(AssertionFailed);
      }
      var dataLen := DataLength(mipmaps, width, height, decodeNeeded);
      ChainBytesIsDataLen(decodeNeeded);
      assert dataLen == ChainBytes(decodeNeeded);
      if dataLen > 0 {
        datas := new Byte[dataLen](_ => 0);
      }
      assert datas[..] == Zeros(ChainBytes(decodeNeeded));
      err := ConvertLevels(data, datas, mipmaps, width, height, 4, decodeNeeded);
    }

    /** `parse_tile` (lines 321-368) on a file holding `data`: the 257 DDS
        files it writes, in order. The loop of lines 345-354 is the loop of
        `calc_tile_size`. */
    method ParseTile(data: seq<Byte>) returns (r: Result<seq<seq<Byte>>>)
      modifies this
      ensures r.Err? <==> |data| < 4
      ensures r.Err? ==> r.error == Truncated && width == old(width) && height == old(height) && mipmapCount == old(mipmapCount)
      ensures r.Ok? ==> width == TILE_SIDE && height == TILE_SIDE && mipmapCount == 7 && r.value == Tiles(data)
      ensures decodeNeeded == old(decodeNeeded) && datas == old(datas) && headers == old(headers)
    {
      var tileSize := ReadI32(data, 0);
      if tileSize.Err? {
        return Err(tileSize.error);
      }
      var side := TILE_SIDE;
      width, height := side, side;
      MipCountTile();
      mipmapCount := MipCount(width, height).value;
      var dataLen := CalcTileSize(mipmapCount, width, height, 8);
      ChainBytesIsDataLen(false);
      assert dataLen == ChainBytes(false);
      var tiles := WriteTiles(data, dataLen);
      r := Ok(tiles);
    }

    /** The loop of `parse_tile` over the 257 tiles (lines 356-366): each
        reads the next `data_len - 4` bytes and stores them after a fresh
        default header. */
    method WriteTiles(data: seq<Byte>, dataLen: nat) returns (tiles: seq<seq<Byte>>)
      requires |data| >= 4 && dataLen == ChainBytes(false)
      requires width == TILE_SIDE && height == TILE_SIDE && mipmapCount == 7
      ensures tiles == Tiles(data)
    {
      var pos: nat := 4;
      tiles := [];
      var i := 0;
      while i < TILE_COUNT
        invariant 0 <= i <= TILE_COUNT && |tiles| == i
        invariant pos == ChunkStart(data, i)
        invariant forall j :: 0 <= j < i ==> tiles[j] == Tile(TileHeader(), Chunk(data, j))
      {
        var dd := ReadUpTo(data, pos, dataLen - 4);
        pos := pos + |dd|;
        var header := DefaultHeader();
        var tile := WriteTile(header.value, dd, dataLen);
        tiles := tiles + [tile];
        i := i + 1;
      }
      assert tiles == Tiles(data);
    }
  }

  /** The body of the loop of `parse_tile` (lines 357-361): a zeroed
      buffer, the header stored at 0 and the tile bytes at 128. */
  method WriteTile(header: seq<Byte>, dd: seq<Byte>, dataLen: nat) returns (tile: seq<Byte>)
    requires |header| == HEADER_SIZE && dataLen == ChainBytes(false) && |dd| <= dataLen
    ensures tile == Tile(header, dd)
  {
    var result := new Byte[HEADER_SIZE + dataLen + TRAILER](_ => 0);
    assert result[..] == Zeros(HEADER_SIZE + dataLen + TRAILER);
    TileBytes(header, dd);
    var packed := PackInto([StrField(header, HEADER_SIZE)], result, 0);
    packed := PackInto([StrField(dd, dataLen)], result, HEADER_SIZE);
    tile := result[..];
  }

  /** The two stores of a tile on a zeroed buffer lay it out as `Tile`. */
  lemma {:induction false} TileBytes(header: seq<Byte>, dd: seq<Byte>)
    requires |header| == HEADER_SIZE && |dd| <= ChainBytes(false)
    ensures var size := HEADER_SIZE + ChainBytes(false) + TRAILER;
      var r1 := PackSpec([StrField(header, HEADER_SIZE)], Zeros(size), 0);
      var r2 := PackSpec([StrField(dd, ChainBytes(false))], r1.1, HEADER_SIZE);
      r1.0.Ok? && r2.0.Ok? && r2.1 == Tile(header, dd)
  {
    var len := ChainBytes(false);
    var size := HEADER_SIZE + len + TRAILER;
    var z: seq<Byte> := Zeros(size);
    SingleCall(StrField(header, HEADER_SIZE));
    SingleCall(StrField(dd, len));
    assert PadTo(header, HEADER_SIZE) == header;
    assert z == [] + z;
    SpliceAppend([], z, header);
    var r1 := header + z[HEADER_SIZE..];
    assert PackSpec([StrField(header, HEADER_SIZE)], z, 0).1 == r1;
    assert z[HEADER_SIZE..] == Zeros(len + TRAILER);
    SpliceAppend(header, Zeros(len + TRAILER), PadTo(dd, len));
    assert Zeros(len + TRAILER)[len..] == Zeros(TRAILER);
  }

  /** The bytes a walk over `ls` reads without `--decode`: the level sizes
      added up. */
  function CopyLen(ls: seq<(int, int)>): nat
    requires Visited(ls)
    decreases |ls|
  {
    if ls == [] then 0 else TileLevelSize(ls[0].0, ls[0].1) + CopyLen(ls[1..])
  }

  /** The bytes a walk over `ls` writes with `--decode`. */
  function DecodeLen(ls: seq<(int, int)>): nat
    requires Visited(ls)
    decreases |ls|
  {
    if ls == [] then 0 else DecodedSize(ls[0].0, ls[0].1) + DecodeLen(ls[1..])
  }

  /** Those are the `data_len` the size loops compute for the same levels. */
  lemma {:induction false} WalkLenIsDataLen(ls: seq<(int, int)>)
    requires Visited(ls)
    ensures CopyLen(ls) == DataLen(ls, 8, false)
    ensures DecodeLen(ls) == DataLen(ls, 8, true)
    decreases |ls|
  {
    if ls != [] {
      var w, h := ls[0].0, ls[0].1;
      TileLevelSizeExact(w, h);
      assert h * w * 4 == w * 4 * h;
      WalkLenIsDataLen(ls[1..]);
    }
  }

  /** The 64×64 chain has sides of at least 1 and is `ChainBytes` long. */
  lemma {:induction false} ChainWalkLen()
    ensures Visited(MipLevels(7, TILE_SIDE, TILE_SIDE))
    ensures CopyLen(MipLevels(7, TILE_SIDE, TILE_SIDE)) == ChainBytes(false)
    ensures DecodeLen(MipLevels(7, TILE_SIDE, TILE_SIDE)) == ChainBytes(true)
  {
    MipLevelsShape(7, TILE_SIDE, TILE_SIDE);
    ChainBytesIsDataLen(false);
    ChainBytesIsDataLen(true);
    WalkLenIsDataLen(MipLevels(7, TILE_SIDE, TILE_SIDE));
  }

  /** Storing no bytes changes nothing. */
  lemma {:induction false} SpliceNothing(buf: seq<Byte>, d: nat, bytes: seq<Byte>)
    requires bytes == [] && d <= |buf|
    ensures Splice(buf, d, bytes) == buf
  {
    assert forall k :: 0 <= k < |buf| ==> Splice(buf, d, bytes)[k] == buf[k];
  }

  /** A store over the whole buffer leaves only what it stores. */
  lemma {:induction false} SpliceWhole(buf: seq<Byte>, bytes: seq<Byte>)
    requires |bytes| == |buf|
    ensures Splice(buf, 0, bytes) == bytes
  {
    assert forall k :: 0 <= k < |buf| ==> Splice(buf, 0, bytes)[k] == bytes[k];
  }

  /** Two stores side by side, the second at `d2` just after the first,
      are one store of both. */
  lemma {:induction false} SpliceSplice(buf: seq<Byte>, d: nat, first: seq<Byte>, d2: nat, second: seq<Byte>)
    requires d2 == d + |first| && d2 + |second| <= |buf|
    ensures Splice(Splice(buf, d, first), d2, second) == Splice(buf, d, first + second)
  {
    var one := Splice(buf, d, first);
    var two := Splice(one, d2, second);
    var both := Splice(buf, d, first + second);
    forall k | 0 <= k < |buf|
      ensures two[k] == both[k]
    {
      if d2 <= k < d2 + |second| {
        assert (first + second)[k - d] == second[k - d2];
      } else if d <= k < d2 {
        assert (first + second)[k - d] == first[k - d];
      }
    }
  }

  /** Adjacent slices join into one. */
  lemma {:induction false} SliceJoin(s: seq<Byte>, i: nat, j: nat, k: nat)
    requires i <= j <= k <= |s|
    ensures s[i..j] + s[j..k] == s[i..k]
  {
    assert forall m :: 0 <= m < k - i ==> (s[i..j] + s[j..k])[m] == s[i..k][m];
  }

  /** One level copied as stored: it fails only when the file runs out,
      and otherwise stores the next `size` bytes of the file at `d`. */
  lemma {:induction false} CopyLevelReads(buf: seq<Byte>, data: seq<Byte>, e: nat, d: nat, w: int, h: int)
    requires w >= 1 && h >= 1 && d + TileLevelSize(w, h) <= |buf|
    ensures var size := TileLevelSize(w, h);
      var r := CopyLevelSpec(buf, data, e, d, w, h);
      (r.0.None? <==> e + size <= |data|) &&
      (r.0.Some? ==> r.0.value == Truncated) &&
      (r.0.None? ==> r.1 == Splice(buf, d, data[e..e + size]))
  {
    var size := TileLevelSize(w, h);
    if e + size <= |data| {
      assert PadTo(data[e..e + size], size) == data[e..e + size];
    }
  }

  /** One level of the walk without `--decode`: a short read ends it,
      otherwise the rest of the walk goes on from the stored bytes. */
  lemma {:induction false} CopyWalkStep(ls: seq<(int, int)>, data: seq<Byte>, buf: seq<Byte>, e: nat, d: nat)
    requires Visited(ls) && ls != [] && d + TileLevelSize(ls[0].0, ls[0].1) <= |buf|
    ensures var size := TileLevelSize(ls[0].0, ls[0].1);
      CopyLen(ls) == size + CopyLen(ls[1..]) &&
      (e + size > |data| ==> CopyWalk(ls, data, buf, e, d) == (Some(Truncated), buf)) &&
      (e + size <= |data| ==>
        CopyWalk(ls, data, buf, e, d) == CopyWalk(ls[1..], data, Splice(buf, d, data[e..e + size]), e + size, d + size))
  {
    CopyLevelReads(buf, data, e, d, ls[0].0, ls[0].1);
  }

  /** Without `--decode` the walk fails, with a short read, exactly when
      the file holds fewer than `CopyLen(ls)` bytes after `e`. */
  lemma {:induction false} CopyWalkOutcome(ls: seq<(int, int)>, data: seq<Byte>, buf: seq<Byte>, e: nat, d: nat)
    requires Visited(ls) && e <= |data| && d + CopyLen(ls) <= |buf|
    ensures var r := CopyWalk(ls, data, buf, e, d);
      (r.0.None? <==> e + CopyLen(ls) <= |data|) &&
      (r.0.Some? ==> r.0.value == Truncated)
    decreases |ls|
  {
    if ls != [] {
      var size := TileLevelSize(ls[0].0, ls[0].1);
      CopyWalkStep(ls, data, buf, e, d);
      if e + size <= |data| {
        CopyWalkOutcome(ls[1..], data, Splice(buf, d, data[e..e + size]), e + size, d + size);
      }
    }
  }

  /** When it does not fail, it stores those bytes, in order, at `d`. */
  lemma {:induction false} CopyWalkBytes(ls: seq<(int, int)>, data: seq<Byte>, buf: seq<Byte>, e: nat, d: nat)
    requires Visited(ls) && e + CopyLen(ls) <= |data| && d + CopyLen(ls) <= |buf|
    ensures CopyWalk(ls, data, buf, e, d).1 == Splice(buf, d, data[e..e + CopyLen(ls)])
    decreases |ls|
  {
    if ls == [] {
      SpliceNothing(buf, d, data[e..e]);
    } else {
      var size := TileLevelSize(ls[0].0, ls[0].1);
      var rest := CopyLen(ls[1..]);
      CopyWalkStep(ls, data, buf, e, d);
      var e1, d1 := e + size, d + size;
      var head, tail := data[e..e1], data[e1..e1 + rest];
      var buf1 := Splice(buf, d, head);
      assert CopyWalk(ls, data, buf, e, d) == CopyWalk(ls[1..], data, buf1, e1, d1);
      CopyWalkBytes(ls[1..], data, buf1, e1, d1);
      SpliceSplice(buf, d, head, d1, tail);
      SliceJoin(data, e, e1, e1 + rest);
      assert e + CopyLen(ls) == e1 + rest;
      calc {
        CopyWalk(ls, data, buf, e, d).1;
        CopyWalk(ls[1..], data, buf1, e1, d1).1;
        Splice(buf1, d1, tail);
        Splice(buf, d, head + tail);
      }
    }
  }

  /** Without `--decode` the walk copies the file: it fails with a short
      read exactly when the file holds fewer than `CopyLen(ls)` bytes after
      `e`, and otherwise stores them, in order, at `d`. */
  lemma {:induction false} PassThroughWalk(ls: seq<(int, int)>, data: seq<Byte>, buf: seq<Byte>, e: nat, d: nat)
    requires Visited(ls) && e <= |data| && d + CopyLen(ls) <= |buf|
    ensures var len := CopyLen(ls);
      var r := CopyWalk(ls, data, buf, e, d);
      (r.0.None? <==> e + len <= |data|) &&
      (r.0.Some? ==> r.0.value == Truncated) &&
      (r.0.None? ==> r.1 == Splice(buf, d, data[e..e + len]))
  {
    CopyWalkOutcome(ls, data, buf, e, d);
    if e + CopyLen(ls) <= |data| {
      CopyWalkBytes(ls, data, buf, e, d);
    }
  }

  /** `parse` stops at the magic check before converting anything: a file
      shorter than four bytes raises `struct.error`, another first `int`
      than 64 the assertion. */
  lemma {:induction false} ParseMagic(data: seq<Byte>, decoded: bool)
    ensures |data| < 4 ==> ParseSpec(data, decoded) == (Some(Truncated), None)
    ensures |data| >= 4 && I32(data[0..4]) != 64 ==> ParseSpec(data, decoded) == (Some(AssertionFailed), None)
    ensures |data| >= 4 && I32(data[0..4]) == 64 ==>
      ParseSpec(data, decoded).1.Some? && |ParseSpec(data, decoded).1.value| == ChainBytes(decoded)
  {
  }

  /** Without `--decode`, `parse` succeeds exactly on a file whose first
      `int` is 64 and which holds the 3140 bytes of the chain after it, and
      `_datas` is then those bytes. */
  lemma {:induction false} ParsePassThrough(data: seq<Byte>)
    ensures var p := ParseSpec(data, false);
      (p.0.None? <==> |data| >= 4 + ChainBytes(false) && I32(data[0..4]) == 64) &&
      (p.0.Some? ==> p.0.value == Truncated || p.0.value == AssertionFailed) &&
      (p.0.None? ==> p.1 == Some(data[4..4 + ChainBytes(false)]))
  {
    if |data| >= 4 && I32(data[0..4]) == 64 {
      var len := ChainBytes(false);
      ChainWalkLen();
      var buf := Zeros(len);
      PassThroughWalk(MipLevels(7, TILE_SIDE, TILE_SIDE), data, buf, 4, 0);
      if 4 + len <= |data| {
        SpliceWhole(buf, data[4..4 + len]);
      }
    }
  }

  /** With `--decode`, a walk into a buffer holding exactly its decoded
      length raises once it reaches a 2×2 level after which at most 20
      decoded bytes remain: `s3tc_decode` writes 40 bytes for the first
      block of that level. */
  lemma {:induction false} DecodeRunsOut(ls: seq<(int, int)>, j: nat, data: seq<Byte>, buf: seq<Byte>, e: nat, d: nat)
    requires Visited(ls) && j < |ls| && ls[j] == (2, 2) && DecodeLen(ls[j..]) <= 20
    requires |buf| == d + DecodeLen(ls)
    ensures DecodeWalk(ls, data, buf, e, d).0.Some?
    decreases j
  {
    if j == 0 {
      assert ls[j..] == ls;
      DecodeWalkShort(ls, data, buf, e, d);
    } else {
      var raised, b := DecodeWalkNext(ls, data, buf, e, d);
      if !raised {
        DecodeRunsNext(ls, j, b, d);
        DecodeRunsOut(ls[1..], j - 1, data, b, e + TileLevelSize(ls[0].0, ls[0].1), d + DecodedSize(ls[0].0, ls[0].1));
      }
    }
  }

  /** `DecodeWalkStep` with the first level's outcome named: whether it
      raised, and the buffer it left. */
  lemma {:induction false} DecodeWalkNext(ls: seq<(int, int)>, data: seq<Byte>, buf: seq<Byte>, e: nat, d: nat)
    returns (raised: bool, b: seq<Byte>)
    requires Visited(ls) && ls != []
    ensures Visited(ls[1..]) && |b| == |buf|
    ensures raised ==> DecodeWalk(ls, data, buf, e, d).0.Some?
    ensures !raised ==>
              DecodeWalk(ls, data, buf, e, d) ==
              DecodeWalk(ls[1..], data, b, e + TileLevelSize(ls[0].0, ls[0].1), d + DecodedSize(ls[0].0, ls[0].1))
  {
    var step := DecodeLevelSpec(buf, data, e, d, ls[0].0, ls[0].1);
    DecodeWalkStep(ls, data, buf, e, d);
    raised, b := step.0.Some?, step.1;
  }

  /** What `DecodeRunsOut` asks of the buffer after the first level. */
  lemma {:induction false} DecodeRunsNext(ls: seq<(int, int)>, j: nat, buf: seq<Byte>, d: nat)
    requires Visited(ls) && 0 < j < |ls| && ls[j] == (2, 2) && DecodeLen(ls[j..]) <= 20
    requires |buf| == d + DecodeLen(ls)
    ensures Visited(ls[1..]) && ls[1..][j - 1] == (2, 2) && DecodeLen(ls[1..][j - 1..]) <= 20
    ensures |buf| == (d + DecodedSize(ls[0].0, ls[0].1)) + DecodeLen(ls[1..])
  {
    DecodeTail(ls, j);
  }

  /** A walk whose first level is 2×2 with at most 20 bytes left raises. */
  lemma {:induction false} DecodeWalkShort(ls: seq<(int, int)>, data: seq<Byte>, buf: seq<Byte>, e: nat, d: nat)
    requires Visited(ls) && ls != [] && ls[0] == (2, 2) && |buf| <= d + 20
    ensures DecodeWalk(ls, data, buf, e, d).0.Some?
  {
    DecodeLevelShort(buf, data, e, d, ls[0].0, ls[0].1);
    DecodeWalkStep(ls, data, buf, e, d);
  }

  /** The levels after the first, and what they decode to. */
  lemma {:induction false} DecodeTail(ls: seq<(int, int)>, j: nat)
    requires Visited(ls) && 0 < j < |ls|
    ensures Visited(ls[1..]) && ls[1..][j - 1..] == ls[j..]
    ensures DecodeLen(ls) == DecodedSize(ls[0].0, ls[0].1) + DecodeLen(ls[1..])
  {
  }

  /** One level of the walk with `--decode`: an error ends it, otherwise
      the rest of the walk goes on from the decoded bytes. */
  lemma {:induction false} DecodeWalkStep(ls: seq<(int, int)>, data: seq<Byte>, buf: seq<Byte>, e: nat, d: nat)
    requires Visited(ls) && ls != []
    ensures var w, h := ls[0].0, ls[0].1;
      var step := DecodeLevelSpec(buf, data, e, d, w, h);
      (step.0.Some? ==> DecodeWalk(ls, data, buf, e, d) == step) &&
      (step.0.None? ==>
        DecodeWalk(ls, data, buf, e, d) ==
        DecodeWalk(ls[1..], data, step.1, e + TileLevelSize(w, h), d + DecodedSize(w, h)))
  {
  }

  /** A 2×2 level decoded where at most 20 bytes remain raises: its first
      block writes 40. */
  lemma {:induction false} DecodeLevelShort(buf: seq<Byte>, data: seq<Byte>, e: nat, d: nat, w: int, h: int)
    requires w == 2 && h == 2 && |buf| <= d + 20
    ensures DecodeLevelSpec(buf, data, e, d, w, h).0.Some?
  {
    DecodeOk(buf, data, e, d, w, h);
    StepsProduct(d, 48, 0);
  }

  /** With `--decode`, `parse` raises on every file. */
  lemma {:induction false} ParseDecodeFails(data: seq<Byte>)
    ensures ParseSpec(data, true).0.Some?
  {
    if |data| >= 4 && I32(data[0..4]) == 64 {
      ChainWalkLen();
      var ls := MipLevels(7, TILE_SIDE, TILE_SIDE);
      Levels64(7);
      ChainTails(ls);
      assert DecodeLen(ls[5..]) == 20 by {
        assert ls[5..][1..] == [(1, 1)];
      }
      DecodeRunsOut(ls, 5, data, Zeros(ChainBytes(true)), 4, 0);
    }
  }

  /** Each file `parse_tile` writes is the default header, the bytes read
      for that tile (at most `data_len - 4`) and zeros up to 3273 bytes. */
  lemma {:induction false} TileContents(data: seq<Byte>, i: nat)
    requires |data| >= 4 && i < TILE_COUNT
    ensures var c := Chunk(data, i);
      |c| <= ChunkSize() &&
      |Tiles(data)[i]| == HEADER_SIZE + ChainBytes(false) + TRAILER &&
      Tiles(data)[i] == TileHeader() + c + Zeros(ChainBytes(false) + TRAILER - |c|)
  {
    var c := Chunk(data, i);
    var len := ChainBytes(false);
    assert |TileHeader()| == HEADER_SIZE;
    assert PadTo(TileHeader(), HEADER_SIZE) == TileHeader();
    assert PadTo(c, len) == c + Zeros(len - |c|);
    assert Zeros(len - |c|) + Zeros(TRAILER) == Zeros(len + TRAILER - |c|);
  }

  /** The bytes of the first `n` tiles, in order. */
  function ChunksUpTo(data: seq<Byte>, n: nat): seq<Byte>
    requires |data| >= 4
  {
    if n == 0 then [] else ChunksUpTo(data, n - 1) + Chunk(data, n - 1)
  }

  /** The tiles read the file after its leading `int` in order, without
      gap or overlap, until it ends or 257 reads are done. */
  lemma {:induction false} ChunksCover(data: seq<Byte>, n: nat)
    requires |data| >= 4
    ensures ChunksUpTo(data, n) == data[4..ChunkStart(data, n)]
  {
    if n > 0 {
      ChunksCover(data, n - 1);
      assert data[4..ChunkStart(data, n - 1)] + data[ChunkStart(data, n - 1)..ChunkStart(data, n)] ==
             data[4..ChunkStart(data, n)];
    }
  }
}
