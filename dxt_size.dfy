/** The mip-chain sizes of the tiled texture container: how many bytes each
    level of a DXT1 chain is taken to occupy, and the walk over the levels
    that `calc_tile_size` and both loops of `parse` share. Python 3 `/` is
    true division, so the per-level size is a real number truncated by
    `int`, not the block count of a DXT1 level. */
module DxtSize {
  import opened Reader

  /** `int(x)`: truncation toward zero. */
  function Trunc(x: real): (n: int)
    ensures x >= 0.0 ==> n as real <= x < n as real + 1.0
    ensures x < 0.0 ==> n as real - 1.0 < x <= n as real
  {
    if x >= 0.0 then x.Floor else -((-x).Floor)
  }

  /** The block size `calc_dxt1_size` picks: 8 bytes for DXT1, 16 for any
      other `dxtx`. */
  function BlockSize(dxtx: int): (bs: int)
    ensures bs == 8 <==> dxtx == 1
    ensures bs == 16 <==> dxtx != 1
  {
    if dxtx == 1 then 8 else 16
  }

  /** `calc_dxt1_size(worh, dxtx)` (lines 123-134): a float, since nothing
      truncates it. */
  function Dxt1Size(worh: int, dxtx: int): (size: real)
  {
    var side := if worh == 0 then 1 else worh;
    (side as real + 3.0) / 4.0 * ((side as real + 3.0) / 4.0) * BlockSize(dxtx) as real
  }

  /** A zero side counts as one. */
  lemma {:induction false} Dxt1SizeZero(dxtx: int)
    ensures Dxt1Size(0, dxtx) == Dxt1Size(1, dxtx) == BlockSize(dxtx) as real
  {
  }

  /** For a positive side the float is `(side + 3)^2 * bs / 16`, which is a
      whole number of blocks only when `side` is one more than a multiple
      of 4. */
  lemma {:induction false} Dxt1SizeBlocks(side: int, dxtx: int)
    requires side >= 1
    ensures Dxt1Size(side, dxtx) * 16.0 == ((side + 3) * (side + 3) * BlockSize(dxtx)) as real
    ensures side % 4 == 1 ==> Dxt1Size(side, dxtx) == (((side + 3) / 4) * ((side + 3) / 4) * BlockSize(dxtx)) as real
  {
    var s := side as real + 3.0;
    assert s / 4.0 * (s / 4.0) * 16.0 == s * s;
    if side % 4 == 1 {
      var q := (side + 3) / 4;
      assert side + 3 == 4 * q;
      assert s / 4.0 == q as real;
    }
  }

  /** `int(((w + 3) / 4) * ((h + 3) / 4) * block_size)`: the size of one
      level (lines 144, 279, 300 and 351). */
  function LevelSize(w: int, h: int, blockSize: int): int {
    Trunc((w as real + 3.0) / 4.0 * ((h as real + 3.0) / 4.0) * blockSize as real)
  }

  /** The size of a DXT1 level by its block count, `ceil(w/4) * ceil(h/4)`
      blocks of `blockSize` bytes: the reference the level size is
      measured against. */
  function BlockCountSize(w: int, h: int, blockSize: int): int {
    ((w + 3) / 4) * ((h + 3) / 4) * blockSize
  }

  /** The real product equals the integer product, read as a real. */
  lemma {:induction false} ProductAsReal(w: int, h: int, blockSize: int)
    ensures (w as real + 3.0) / 4.0 * ((h as real + 3.0) / 4.0) * blockSize as real * 16.0 ==
            ((w + 3) * (h + 3) * blockSize) as real
  {
    var a, b, c := (w + 3) as real, (h + 3) as real, blockSize as real;
    assert (w + 3) as real == w as real + 3.0;
    assert (h + 3) as real == h as real + 3.0;
    assert ((w + 3) * (h + 3)) as real == a * b;
    assert ((w + 3) * (h + 3) * blockSize) as real == a * b * c;
    assert a / 4.0 * (b / 4.0) * c * 16.0 == a * b * c;
  }

  /** A real that is a sixteenth of a non-negative integer truncates to that
      integer's quotient by 16. */
  lemma {:induction false} TruncSixteenth(x: real, p: int)
    requires p >= 0 && x * 16.0 == p as real
    ensures Trunc(x) == p / 16
  {
    var q, r := p / 16, p % 16;
    assert p == 16 * q + r && 0 <= r < 16;
    assert p as real == 16.0 * q as real + r as real;
    assert x == q as real + r as real / 16.0;
    assert q as real <= x < q as real + 1.0;
  }

  lemma {:induction false} MulMonotone(a: int, b: int, c: int)
    requires a <= b && c >= 0
    ensures a * c <= b * c
  {
  }

  /** Four blocks a side fit in `side + 3` pixels. */
  lemma {:induction false} BlocksFit(w: int, h: int, blockSize: int)
    requires w >= 1 && h >= 1 && blockSize >= 0
    ensures 16 * BlockCountSize(w, h, blockSize) <= (w + 3) * (h + 3) * blockSize
  {
    var a, b := (w + 3) / 4, (h + 3) / 4;
    assert 0 <= 4 * a <= w + 3 && 0 <= 4 * b <= h + 3;
    MulMonotone(4 * a, w + 3, 4 * b);
    MulMonotone(4 * b, h + 3, w + 3);
    assert (4 * a) * (4 * b) == 16 * (a * b);
    MulMonotone(16 * (a * b), (w + 3) * (h + 3), blockSize);
    assert 16 * (a * b) * blockSize == 16 * (a * b * blockSize);
  }

  /** The truncated float is the floor of `(w + 3) * (h + 3) * bs / 16`, and
      never below the block count. */
  lemma {:induction false} LevelSizeExact(w: int, h: int, blockSize: int)
    requires w >= 1 && h >= 1 && blockSize >= 0
    ensures LevelSize(w, h, blockSize) == (w + 3) * (h + 3) * blockSize / 16
    ensures LevelSize(w, h, blockSize) >= BlockCountSize(w, h, blockSize)
  {
    var p := (w + 3) * (h + 3) * blockSize;
    ProductAsReal(w, h, blockSize);
    assert p >= 0;
    TruncSixteenth((w as real + 3.0) / 4.0 * ((h as real + 3.0) / 4.0) * blockSize as real, p);
    BlocksFit(w, h, blockSize);
  }

  /** The sizes of the levels a walk visits: `(w, h)` after the clamp. */
  function LevelBytes(level: (int, int), blockSize: int, decoded: bool): int {
    if decoded then level.1 * level.0 * 4 else LevelSize(level.0, level.1, blockSize)
  }

  /** The levels `for i in range(n)` visits from `(w, h)`: it stops once
      both sides are 0, turns a single zero side into 1, and halves both
      sides with `>> 1` after each level. */
  function MipLevels(n: nat, w: int, h: int): (levels: seq<(int, int)>)
    ensures |levels| <= n
    decreases n
  {
    if n == 0 || (w == 0 && h == 0) then []
    else
      var w1 := if w == 0 then 1 else w;
      var h1 := if h == 0 then 1 else h;
      [(w1, h1)] + MipLevels(n - 1, w1 / 2, h1 / 2)
  }

  /** The running `data_len` of a walk over `levels`. */
  function DataLen(levels: seq<(int, int)>, blockSize: int, decoded: bool): int
    decreases |levels|
  {
    if levels == [] then 0 else LevelBytes(levels[0], blockSize, decoded) + DataLen(levels[1..], blockSize, decoded)
  }

  /** The same total by block count. */
  function BlockDataLen(levels: seq<(int, int)>, blockSize: int): int
    decreases |levels|
  {
    if levels == [] then 0 else BlockCountSize(levels[0].0, levels[0].1, blockSize) + BlockDataLen(levels[1..], blockSize)
  }

  /** `calc_tile_size` (lines 136-149). */
  method CalcTileSize(mpcnt: int, w0: int, h0: int, blockSize: int) returns (dataLen: int)
    ensures dataLen == DataLen(MipLevels(RangeLength(mpcnt), w0, h0), blockSize, false)
  {
    dataLen := 0;
    var w, h := w0, h0;
    var i := 0;
    while i < mpcnt
      invariant 0 <= i <= RangeLength(mpcnt)
      invariant dataLen + DataLen(MipLevels(RangeLength(mpcnt) - i, w, h), blockSize, false) ==
                DataLen(MipLevels(RangeLength(mpcnt), w0, h0), blockSize, false)
    {
      if w == 0 && h == 0 {
        break;
      }
      if w == 0 {
        w := 1;
      }
      if h == 0 {
        h := 1;
      }
      ghost var rest := MipLevels(RangeLength(mpcnt) - i - 1, w / 2, h / 2);
      assert MipLevels(RangeLength(mpcnt) - i, w, h) == [(w, h)] + rest;
      assert ([(w, h)] + rest)[1..] == rest;
      dataLen := dataLen + LevelSize(w, h, blockSize);
      w := w / 2;
      h := h / 2;
      i := i + 1;
    }
  }

  /** Every level the walk visits from non-negative sides has both sides at
      least 1, each level is the previous one halved and clamped, and a walk
      that ends before `n` levels ended after a 1×1 level (or never began,
      from 0×0). */
  lemma {:induction false} MipLevelsShape(n: nat, w: int, h: int)
    requires w >= 0 && h >= 0
    ensures var ls := MipLevels(n, w, h);
      (forall k :: 0 <= k < |ls| ==> ls[k].0 >= 1 && ls[k].1 >= 1) &&
      (ls != [] ==> ls[0] == (if w == 0 then 1 else w, if h == 0 then 1 else h)) &&
      (forall k :: 0 <= k < |ls| - 1 ==>
        ls[k + 1] == (if ls[k].0 / 2 == 0 then 1 else ls[k].0 / 2, if ls[k].1 / 2 == 0 then 1 else ls[k].1 / 2)) &&
      (|ls| < n ==> (ls == [] && w == 0 && h == 0) || (ls != [] && ls[|ls| - 1] == (1, 1)))
    decreases n
  {
    var ls := MipLevels(n, w, h);
    if n > 0 && !(w == 0 && h == 0) {
      var w1 := if w == 0 then 1 else w;
      var h1 := if h == 0 then 1 else h;
      var rest := MipLevels(n - 1, w1 / 2, h1 / 2);
      MipLevelsShape(n - 1, w1 / 2, h1 / 2);
      assert ls == [(w1, h1)] + rest;
      forall k | 0 <= k < |ls| - 1
        ensures ls[k + 1] == (if ls[k].0 / 2 == 0 then 1 else ls[k].0 / 2, if ls[k].1 / 2 == 0 then 1 else ls[k].1 / 2)
      {
        if k > 0 {
          assert ls[k] == rest[k - 1] && ls[k + 1] == rest[k];
        }
      }
    }
  }

  /** The 64×64 chain of `parse` and `parse_tile`: seven levels, 64 down to 1,
      and an eighth would find both sides 0. */
  lemma {:induction false} Levels64(n: nat)
    requires n >= 7
    ensures MipLevels(n, 64, 64) == Chain64()
  {
    assert MipLevels(n - 7, 0, 0) == [];
    assert MipLevels(n - 6, 1, 1) == [(1, 1)];
    assert MipLevels(n - 5, 2, 2) == [(2, 2), (1, 1)];
    assert MipLevels(n - 4, 4, 4) == [(4, 4), (2, 2), (1, 1)];
    assert MipLevels(n - 3, 8, 8) == [(8, 8), (4, 4), (2, 2), (1, 1)];
    assert MipLevels(n - 2, 16, 16) == [(16, 16), (8, 8), (4, 4), (2, 2), (1, 1)];
    assert MipLevels(n - 1, 32, 32) == [(32, 32), (16, 16), (8, 8), (4, 4), (2, 2), (1, 1)];
  }

  /** The sizes of that chain: 3140 bytes as written, 2744 by block count,
      and 21844 bytes once decoded to 4 bytes a pixel. */
  lemma {:induction false} Sizes64()
    ensures DataLen(MipLevels(7, 64, 64), 8, false) == 3140
    ensures BlockDataLen(MipLevels(7, 64, 64), 8) == 2744
    ensures DataLen(MipLevels(7, 64, 64), 8, true) == 21844
  {
    Levels64(7);
    Chain64Sizes();
    Chain64Blocks();
  }

  /** The seven levels of the 64×64 chain. */
  function Chain64(): seq<(int, int)> {
    [(64, 64), (32, 32), (16, 16), (8, 8), (4, 4), (2, 2), (1, 1)]
  }

  lemma {:induction false} Chain64Sizes()
    ensures DataLen(Chain64(), 8, false) == 3140
    ensures DataLen(Chain64(), 8, true) == 21844
  {
    var ls := Chain64();
    LevelSizeExact(64, 64, 8);
    LevelSizeExact(32, 32, 8);
    LevelSizeExact(16, 16, 8);
    LevelSizeExact(8, 8, 8);
    LevelSizeExact(4, 4, 8);
    LevelSizeExact(2, 2, 8);
    LevelSizeExact(1, 1, 8);
    assert LevelSize(64, 64, 8) == 2244 && LevelSize(32, 32, 8) == 612 && LevelSize(16, 16, 8) == 180;
    assert LevelSize(8, 8, 8) == 60 && LevelSize(4, 4, 8) == 24 && LevelSize(2, 2, 8) == 12 && LevelSize(1, 1, 8) == 8;
    ChainTails(ls);
  }

  lemma {:induction false} Chain64Blocks()
    ensures BlockDataLen(Chain64(), 8) == 2744
  {
    ChainTails(Chain64());
  }

  lemma {:induction false} ChainTails(ls: seq<(int, int)>)
    requires ls == Chain64()
    ensures ls[1..] == [(32, 32), (16, 16), (8, 8), (4, 4), (2, 2), (1, 1)]
    ensures ls[2..] == [(16, 16), (8, 8), (4, 4), (2, 2), (1, 1)]
    ensures ls[3..] == [(8, 8), (4, 4), (2, 2), (1, 1)]
    ensures ls[4..] == [(4, 4), (2, 2), (1, 1)]
    ensures ls[5..] == [(2, 2), (1, 1)]
    ensures ls[6..] == [(1, 1)] && ls[7..] == []
  {
  }
}
