/** `read_h32` of `h322r16.py`: a `.h32` height field is a run of `(b, g, r)`
    byte triples, one per sample, read with `x` in the outer loop and `y` in
    the inner one. `b` and `g` make a 16-bit height, `r` goes to a detail
    image. In unity mode both sides are padded up to a power of two plus
    one, and the padding samples are zero and read nothing. */
module HeightField {
  import opened Bytes
  import opened Outcome
  import opened IntLog

  /** The sides of the sample grid and of the detail image, fixed before
      the loops start. */
  datatype Grid = Grid(width: int, height: int, forUnity: bool, x2: nat, y2: nat)
  {
    /** What the setup guarantees: in unity mode the data sits strictly
        inside the padded sides; otherwise the sides are the data's own. */
    predicate Valid() {
      if forUnity then 1 <= width < x2 && 1 <= height < y2
      else width == x2 && height == y2
    }

    /** The `Image.new` size: one less than each padded side in unity mode. */
    function ImageWidth(): int {
      if forUnity then x2 - 1 else x2
    }

    function ImageHeight(): int {
      if forUnity then y2 - 1 else y2
    }

    /** Sample `(x, y)` comes from the file rather than the padding. */
    predicate InData(x: int, y: int) {
      x < width && y < height
    }

    /** Lines 99-102 and 107-110: the padding samples that are drawn, all of
        them outside unity mode and those inside the image in unity mode. */
    predicate PaddingDrawn(x: int, y: int) {
      !forUnity || (y < y2 - 1 && x < x2 - 1)
    }

    /** `image.putpixel((y, x), ...)` hits the image: `y` is the column and
        `x` the row. */
    predicate Fits(x: int, y: int) {
      y < ImageWidth() && x < ImageHeight()
    }

    /** Where the triple of an in-data sample starts in the file. */
    function Offset(x: nat, y: nat): int {
      3 * (x * height + y)
    }
  }

  /** Lines 78-85: `int(math.pow(2, math.ceil(math.log2(d)))) + 1` in unity
      mode, the side itself otherwise. `log2` of a side below 1 raises. */
  function PaddedSide(d: int, forUnity: bool): (r: Result<int>)
    ensures !forUnity ==> r == Ok(d)
    ensures forUnity ==> (r.Ok? <==> d >= 1)
    ensures r.Err? ==> r.error == MathDomain
    ensures forUnity && r.Ok? ==> d < r.value <= 2 * d
  {
    if !forUnity then Ok(d)
    else if d < 1 then Err(MathDomain)
    else
      Log2CeilBounds(d);
      Ok(Pow2(Log2Ceil(d)) + 1)
  }

  /** The padded side is one more than a power of two; a side that already
      is a power of two keeps it. */
  lemma {:induction false} PaddedSidePow2(k: nat)
    ensures PaddedSide(Pow2(k), true) == Ok(Pow2(k) + 1)
  {
    Log2CeilPow2(k);
  }

  /** The default resolution: 1536 pads to 2049. */
  lemma {:induction false} PaddedSide1536()
    ensures PaddedSide(1536, true) == Ok(2049)
  {
    var c := Log2Ceil(1536);
    Log2CeilBounds(1536);
    assert Pow2(10) == 1024;
    assert Pow2(11) == 2048;
    Pow2Monotone(10, c);
    Pow2Monotone(c - 1, 11);
  }

  /** Lines 78-91: both padded sides, then `Image.new`, which refuses a
      negative size. */
  function Setup(width: int, height: int, forUnity: bool): (r: Result<Grid>)
    ensures r.Ok? ==> r.value.Valid() && r.value.width == width && r.value.height == height && r.value.forUnity == forUnity
    ensures r.Err? ==> r.error == (if forUnity then MathDomain else BadImageSize)
    ensures r.Ok? <==> (if forUnity then width >= 1 && height >= 1 else width >= 0 && height >= 0)
  {
    var x2 :- PaddedSide(width, forUnity);
    var y2 :- PaddedSide(height, forUnity);
    if x2 < 0 || y2 < 0 then Err(BadImageSize)
    else Ok(Grid(width, height, forUnity, x2, y2))
  }

  /** Line 115: `(b & 0xFF) | ((g << 8) & 0xFF00)`. On a non-negative
      value `& 0xFF` keeps `v % 0x100` and `& 0xFF00` keeps
      `v % 0x1_0000 - v % 0x100`; `<< 8` multiplies by `0x100`; and the two
      operands of `|` share no bit (one is below `0x100`, the other a
      multiple of it), so `|` adds them. */
  function Height(b: Byte, g: Byte): Word16 {
    var lo := b % 0x100;
    var shifted := g * 0x100;
    var hi := shifted % 0x1_0000 - shifted % 0x100;
    lo + hi
  }

  /** The height is `b` in the low byte and `g` in the high one, so its
      little-endian `<H` encoding is `b, g` again and `r` plays no part. */
  lemma {:induction false} HeightBytes(b: Byte, g: Byte)
    ensures Height(b, g) == b + 0x100 * g
    ensures EncodeU16(Height(b, g)) == [b, g]
  {
    DivMod(b, 0, b);
    DivMod(g * 0x100, g, 0);
    assert (g * 0x100) % 0x1_0000 == g * 0x100;
    DivMod(b + 0x100 * g, g, b);
  }

  lemma {:induction false} DivMod(v: int, q: int, r: int)
    requires 0 <= r < 0x100 && v == q * 0x100 + r
    ensures v % 0x100 == r && v / 0x100 == q
  {
  }

  /** The height of sample `(x, y)` once its bytes are in the file: from the
      triple for an in-data sample, 0 for padding. */
  function SampleAt(g: Grid, file: seq<Byte>, x: nat, y: nat): Word16 {
    if g.InData(x, y) && 0 <= g.Offset(x, y) && g.Offset(x, y) + 3 <= |file| then
      Height(file[g.Offset(x, y)], file[g.Offset(x, y) + 1])
    else 0
  }

  /** The `r` byte drawn at row `x`, column `y` of the detail image. */
  function RedAt(g: Grid, file: seq<Byte>, x: nat, y: nat): Byte {
    if g.InData(x, y) && 0 <= g.Offset(x, y) && g.Offset(x, y) + 3 <= |file| then
      file[g.Offset(x, y) + 2]
    else 0
  }

  /** `image.putpixel((y, x), (v, 0, 0))` on the red channel. */
  function Draw(img: seq<seq<Byte>>, x: nat, y: nat, v: Byte): (r: seq<seq<Byte>>)
    requires x < |img| && y < |img[x]|
  {
    var row: seq<Byte> := img[x][y := v];
    img[x := row]
  }

  /** Cell `(i, j)` is visited before cell `(x, y)`. */
  predicate Before(i: int, j: int, x: int, y: int) {
    i < x || (i == x && j < y)
  }

  /** What one visit of the loops raises, if anything: a short `f.read(3)`
      (`struct.error`), or a `putpixel` outside the image (`IndexError`). */
  function CellFails(g: Grid, n: nat, x: nat, y: nat): (e: Option<Error>)
    ensures e.Some? && e.value == Truncated ==> g.InData(x, y)
    ensures e.None? && g.InData(x, y) ==> g.Offset(x, y) + 3 <= n
  {
    if g.InData(x, y) then
      if g.Offset(x, y) + 3 > n then Some(Truncated)
      else if !g.Fits(x, y) then Some(IndexOutOfRange)
      else None
    else if g.PaddingDrawn(x, y) && !g.Fits(x, y) then Some(IndexOutOfRange)
    else None
  }

  /** The error of the first failing visit from `(x, y)` on, in loop order. */
  function FirstFail(g: Grid, n: nat, x: nat, y: nat): Option<Error>
    decreases g.x2 - x, g.y2 - y
  {
    if x >= g.x2 then None
    else if y >= g.y2 then FirstFail(g, n, x + 1, 0)
    else if CellFails(g, n, x, y).Some? then CellFails(g, n, x, y)
    else FirstFail(g, n, x, y + 1)
  }

  /** No failure from `(x, y)` on exactly when no visit from there fails. */
  lemma {:induction false} FirstFailNone(g: Grid, n: nat, x: nat, y: nat)
    requires y <= g.y2
    ensures FirstFail(g, n, x, y).None? <==>
      forall i: nat, j: nat :: i < g.x2 && j < g.y2 && !Before(i, j, x, y) ==> CellFails(g, n, i, j).None?
    decreases g.x2 - x, g.y2 - y
  {
    if x >= g.x2 {
    } else if y >= g.y2 {
      FirstFailNone(g, n, x + 1, 0);
    } else if CellFails(g, n, x, y).Some? {
    } else {
      FirstFailNone(g, n, x, y + 1);
      assert forall i: nat, j: nat :: !Before(i, j, x, y) ==> (i == x && j == y) || !Before(i, j, x, y + 1);
    }
  }

  /** A failure is the error of some visit from `(x, y)` on, with every
      visit between them passing. */
  lemma {:induction false} FirstFailSome(g: Grid, n: nat, x: nat, y: nat)
    requires y <= g.y2
    requires FirstFail(g, n, x, y).Some?
    ensures exists i: nat, j: nat ::
      && i < g.x2 && j < g.y2 && !Before(i, j, x, y)
      && CellFails(g, n, i, j) == FirstFail(g, n, x, y)
      && (forall k: nat, l: nat :: l < g.y2 && !Before(k, l, x, y) && Before(k, l, i, j) ==> CellFails(g, n, k, l).None?)
    decreases g.x2 - x, g.y2 - y
  {
    if y >= g.y2 {
      FirstFailSome(g, n, x + 1, 0);
    } else if CellFails(g, n, x, y).Some? {
      assert !Before(x, y, x, y);
    } else {
      FirstFailSome(g, n, x, y + 1);
      var i: nat, j: nat :| i < g.x2 && j < g.y2 && !Before(i, j, x, y + 1) &&
        CellFails(g, n, i, j) == FirstFail(g, n, x, y + 1) &&
        forall k: nat, l: nat :: l < g.y2 && !Before(k, l, x, y + 1) && Before(k, l, i, j) ==> CellFails(g, n, k, l).None?;
      assert forall k: nat, l: nat :: !Before(k, l, x, y) ==> (k == x && l == y) || !Before(k, l, x, y + 1);
    }
  }

  /** One row of heights, as the inner loop appends it. */
  function Row(g: Grid, file: seq<Byte>, x: nat): (row: seq<Word16>)
    ensures |row| == g.y2
  {
    seq(g.y2, y requires 0 <= y < g.y2 => SampleAt(g, file, x, y))
  }

  /** The rows before `x`, one after the other: `data` as the outer loop
      has it at the start of row `x`. */
  function Rows(g: Grid, file: seq<Byte>, x: nat): (data: seq<Word16>)
  {
    if x == 0 then [] else Rows(g, file, x - 1) + Row(g, file, x - 1)
  }

  /** All `x2 * y2` heights that `read_h32` returns. */
  function Samples(g: Grid, file: seq<Byte>): (data: seq<Word16>)
    ensures |data| == g.x2 * g.y2
  {
    RowsLength(g, file, g.x2);
    Rows(g, file, g.x2)
  }

  /** The rows before `x` hold `x * y2` samples, sample `(i, j)` at index
      `i * y2 + j`. */
  lemma {:induction false} RowsAt(g: Grid, file: seq<Byte>, x: nat, i: nat, j: nat)
    requires i < x && j < g.y2
    ensures |Rows(g, file, x)| == x * g.y2
    ensures i * g.y2 + j < x * g.y2
    ensures Rows(g, file, x)[i * g.y2 + j] == SampleAt(g, file, i, j)
  {
    var prev := Rows(g, file, x - 1);
    var k := i * g.y2 + j;
    RowsLength(g, file, x - 1);
    GridIndex(x, g.y2, i, j);
    assert Rows(g, file, x) == prev + Row(g, file, x - 1);
    if i < x - 1 {
      RowsAt(g, file, x - 1, i, j);
      assert k < |prev|;
    } else {
      assert k == |prev| + j;
    }
  }

  /** Cell `(i, j)` of an `x` by `y2` grid has a row-major index inside it. */
  lemma {:induction false} GridIndex(x: nat, y2: nat, i: nat, j: nat)
    requires i < x && j < y2
    ensures i * y2 + j < x * y2
    ensures (x - 1) * y2 + y2 == x * y2
  {
    assert i * y2 + j < i * y2 + y2 == (i + 1) * y2;
    assert (i + 1) * y2 <= x * y2;
  }

  lemma {:induction false} RowsLength(g: Grid, file: seq<Byte>, x: nat)
    ensures |Rows(g, file, x)| == x * g.y2
  {
    if x > 0 {
      RowsLength(g, file, x - 1);
    }
  }

  /** The detail image after the visits before `(x, y)`: the drawn `r`
      bytes, black everywhere else. Black padding pixels change nothing. */
  function DetailUpTo(g: Grid, file: seq<Byte>, x: int, y: int): (img: seq<seq<Byte>>)
    requires g.Valid()
    ensures |img| == g.ImageHeight()
    ensures forall row :: 0 <= row < |img| ==> |img[row]| == g.ImageWidth()
  {
    seq(g.ImageHeight(), row requires 0 <= row < g.ImageHeight() =>
      seq(g.ImageWidth(), col requires 0 <= col < g.ImageWidth() =>
        if Before(row, col, x, y) then RedAt(g, file, row, col) else 0))
  }

  /** The whole detail image of a successful read. */
  function Detail(g: Grid, file: seq<Byte>): (img: seq<seq<Byte>>)
    requires g.Valid()
  {
    seq(g.ImageHeight(), row requires 0 <= row < g.ImageHeight() =>
      seq(g.ImageWidth(), col requires 0 <= col < g.ImageWidth() => RedAt(g, file, row, col)))
  }

  /** What `read_h32` returns (the detail image holds the red channel; the
      other two are always zero). */
  datatype Decoded = Decoded(data: seq<Word16>, detail: seq<seq<Byte>>, x2: nat, y2: nat)

  /** Lines 68-124. */
  method ReadH32(file: seq<Byte>, width: int, height: int, forUnity: bool) returns (r: Result<Decoded>)
    ensures Setup(width, height, forUnity).Err? ==> r == Err(Setup(width, height, forUnity).error)
    ensures Setup(width, height, forUnity).Ok? ==>
      var g := Setup(width, height, forUnity).value;
      match FirstFail(g, |file|, 0, 0)
      case Some(e) => r == Err(e)
      case None => r == Ok(Decoded(Samples(g, file), Detail(g, file), g.x2, g.y2))
  {
    var g :- Setup(width, height, forUnity);
    var data: seq<Word16> := [];
    var detail := DetailUpTo(g, file, 0, 0);
    var pos: nat := 0;
    var x: nat := 0;
    while x < g.x2
      invariant x <= g.x2
      invariant FirstFail(g, |file|, 0, 0) == FirstFail(g, |file|, x, 0)
      invariant data == Rows(g, file, x)
      invariant detail == DetailUpTo(g, file, x, 0)
      invariant pos == 3 * ReadsBefore(g, x, 0)
    {
      var row, img, p, err := ReadRow(g, file, x, detail, pos);
      if err.Some? {
        return Err(err.value);
      }
      data, detail, pos := data + row, img, p;
      x := x + 1;
    }
    DetailDone(g, file);
    return Ok(Decoded(data, detail, g.x2, g.y2));
  }

  /** The triples read before the visit of `(x, y)`. */
  function ReadsBefore(g: Grid, x: nat, y: nat): int {
    if x < g.width then x * g.height + (if y < g.height then y else g.height)
    else g.width * g.height
  }

  /** Lines 95-121 for one `x`: the row of heights and the detail image
      with the row drawn, or the first error of the row. */
  method ReadRow(g: Grid, file: seq<Byte>, x: nat, detail0: seq<seq<Byte>>, pos0: nat)
    returns (row: seq<Word16>, detail: seq<seq<Byte>>, pos: nat, err: Option<Error>)
    requires g.Valid() && x < g.x2
    requires detail0 == DetailUpTo(g, file, x, 0)
    requires pos0 == 3 * ReadsBefore(g, x, 0)
    ensures err.Some? ==> FirstFail(g, |file|, x, 0) == err
    ensures err.None? ==> FirstFail(g, |file|, x, 0) == FirstFail(g, |file|, x + 1, 0)
    ensures err.None? ==>
      && row == Row(g, file, x) && detail == DetailUpTo(g, file, x + 1, 0)
      && pos == 3 * ReadsBefore(g, x + 1, 0)
  {
    row, detail, pos, err := [], detail0, pos0, None;
    var y: nat := 0;
    while y < g.y2
      invariant y <= g.y2
      invariant FirstFail(g, |file|, x, 0) == FirstFail(g, |file|, x, y)
      invariant row == Row(g, file, x)[..y]
      invariant detail == DetailUpTo(g, file, x, y)
      invariant pos == 3 * ReadsBefore(g, x, y)
      invariant err.None?
    {
      var h: Word16;
      h, detail, pos, err := Visit(g, file, x, y, detail, pos);
      if err.Some? {
        assert FirstFail(g, |file|, x, y) == err;
        return;
      }
      row := row + [h];
      y := y + 1;
    }
    assert row == Row(g, file, x);
    RowDone(g, file, x);
    RowReads(g, x);
  }

  /** One pass of the inner loop (lines 96-121): the height appended, the
      image with the cell drawn and the position after it, or what the
      visit raises. */
  method Visit(g: Grid, file: seq<Byte>, x: nat, y: nat, detail0: seq<seq<Byte>>, pos0: nat)
    returns (h: Word16, detail: seq<seq<Byte>>, pos: nat, err: Option<Error>)
    requires g.Valid() && x < g.x2 && y < g.y2
    requires detail0 == DetailUpTo(g, file, x, y)
    requires pos0 == 3 * ReadsBefore(g, x, y)
    ensures err == CellFails(g, |file|, x, y)
    ensures err.None? ==>
      && h == SampleAt(g, file, x, y) && detail == DetailUpTo(g, file, x, y + 1)
      && pos == 3 * ReadsBefore(g, x, y + 1)
  {
    h, detail, pos, err := 0, detail0, pos0, None;
    DrawStep(g, file, x, y);
    if x >= g.width || y >= g.height {
      if g.PaddingDrawn(x, y) {
        if !g.Fits(x, y) {
          err := Some(IndexOutOfRange);
          return;
        }
        detail := Draw(detail, x, y, 0);
      }
      assert RedAt(g, file, x, y) == 0;
    } else {
      if pos + 3 > |file| {
        err := Some(Truncated);
        return;
      }
      var b, gr, rd := file[pos], file[pos + 1], file[pos + 2];
      pos := pos + 3;
      if !g.Fits(x, y) {
        err := Some(IndexOutOfRange);
        return;
      }
      assert g.Offset(x, y) == pos - 3;
      assert RedAt(g, file, x, y) == rd;
      detail := Draw(detail, x, y, rd);
      h := Height(b, gr);
    }
  }

  /** A finished row has read its share of triples. */
  lemma {:induction false} RowReads(g: Grid, x: nat)
    requires g.Valid()
    ensures ReadsBefore(g, x, g.y2) == ReadsBefore(g, x + 1, 0)
  {
    if x < g.width {
      assert (x + 1) * g.height == x * g.height + g.height;
    }
  }

  /** One visit's effect on the detail image: the cell's `r` byte where
      the visit draws inside the image, nothing otherwise. */
  lemma {:induction false} DrawStep(g: Grid, file: seq<Byte>, x: nat, y: nat)
    requires g.Valid()
    ensures g.Fits(x, y) ==>
      DetailUpTo(g, file, x, y + 1) == Draw(DetailUpTo(g, file, x, y), x, y, RedAt(g, file, x, y))
    ensures !g.Fits(x, y) || RedAt(g, file, x, y) == 0 ==> DetailUpTo(g, file, x, y + 1) == DetailUpTo(g, file, x, y)
  {
    var a := DetailUpTo(g, file, x, y);
    var b := DetailUpTo(g, file, x, y + 1);
    if g.Fits(x, y) {
      var c := Draw(a, x, y, RedAt(g, file, x, y));
      forall row | 0 <= row < |b|
        ensures b[row] == c[row]
      {
        if row == x {
          assert forall col :: 0 <= col < |b[row]| ==> b[row][col] == c[row][col];
        } else {
          assert forall col :: 0 <= col < |b[row]| ==> b[row][col] == a[row][col];
        }
      }
    }
    if !g.Fits(x, y) || RedAt(g, file, x, y) == 0 {
      forall row | 0 <= row < |b|
        ensures b[row] == a[row]
      {
        assert forall col :: 0 <= col < |b[row]| ==> b[row][col] == a[row][col];
      }
    }
  }

  /** The cells of row `x` past `y2` are never visited, but they are outside
      the data, so the image after the row is the image before the next. */
  lemma {:induction false} RowDone(g: Grid, file: seq<Byte>, x: nat)
    requires g.Valid()
    ensures DetailUpTo(g, file, x, g.y2) == DetailUpTo(g, file, x + 1, 0)
  {
    var a := DetailUpTo(g, file, x, g.y2);
    var b := DetailUpTo(g, file, x + 1, 0);
    forall row | 0 <= row < |b|
      ensures a[row] == b[row]
    {
      assert forall col :: 0 <= col < |b[row]| ==> a[row][col] == b[row][col];
    }
  }

  /** Once every row is visited, each pixel of the image is the `r` byte of
      its cell. */
  lemma {:induction false} DetailDone(g: Grid, file: seq<Byte>)
    requires g.Valid()
    ensures DetailUpTo(g, file, g.x2, 0) == Detail(g, file)
  {
    var a := DetailUpTo(g, file, g.x2, 0);
    var b := Detail(g, file);
    forall row | 0 <= row < |b|
      ensures a[row] == b[row]
    {
      assert forall col :: 0 <= col < |b[row]| ==> a[row][col] == b[row][col];
    }
  }

  /** The padded sides the loops can draw without leaving the image: equal,
      or (outside unity mode) one of them zero so that nothing is drawn. */
  predicate Square(g: Grid) {
    g.x2 == g.y2 || (!g.forUnity && (g.x2 == 0 || g.y2 == 0))
  }

  /** On a square grid every pixel the loops draw is inside the image. */
  lemma {:induction false} DrawnCellsFit(g: Grid, x: nat, y: nat)
    requires g.Valid() && Square(g) && x < g.x2 && y < g.y2
    requires g.InData(x, y) || g.PaddingDrawn(x, y)
    ensures g.Fits(x, y)
  {
  }

  /** An in-data triple ends within the first `3 * width * height` bytes. */
  lemma {:induction false} DataCellInside(g: Grid, x: nat, y: nat)
    requires g.Valid() && g.InData(x, y)
    ensures 0 <= g.Offset(x, y) && g.Offset(x, y) + 3 <= 3 * (g.width * g.height)
  {
    assert x * g.height + g.height == (x + 1) * g.height;
    assert (x + 1) * g.height <= g.width * g.height;
  }

  /** `read_h32` returns exactly when the file holds a triple for every
      in-data sample and the padded sides are square: with the image
      created as `(x2, y2)` but drawn at `(y, x)`, a grid whose sides are
      both positive and unequal always draws outside it (or first runs out
      of file), while a grid with a zero side draws nothing. */
  lemma {:induction false} ReadSucceeds(g: Grid, n: nat)
    requires g.Valid()
    ensures FirstFail(g, n, 0, 0).None? <==> n >= 3 * (g.width * g.height) && Square(g)
  {
    FirstFailNone(g, n, 0, 0);
    if n >= 3 * (g.width * g.height) && Square(g) {
      AllCellsPass(g, n);
    } else {
      var i: nat, j: nat := FailingCell(g, n);
      assert !Before(i, j, 0, 0);
    }
  }

  lemma {:induction false} AllCellsPass(g: Grid, n: nat)
    requires g.Valid() && n >= 3 * (g.width * g.height) && Square(g)
    ensures forall i: nat, j: nat :: i < g.x2 && j < g.y2 ==> CellFails(g, n, i, j).None?
  {
    forall i: nat, j: nat | i < g.x2 && j < g.y2
      ensures CellFails(g, n, i, j).None?
    {
      if g.InData(i, j) {
        DataCellInside(g, i, j);
        DrawnCellsFit(g, i, j);
      } else if g.PaddingDrawn(i, j) {
        DrawnCellsFit(g, i, j);
      }
    }
  }

  /** A visit that fails when the file is short or the grid not square: the
      last in-data sample, or a pixel drawn outside the image. */
  lemma {:induction false} FailingCell(g: Grid, n: nat) returns (x: nat, y: nat)
    requires g.Valid() && !(n >= 3 * (g.width * g.height) && Square(g))
    ensures x < g.x2 && y < g.y2 && CellFails(g, n, x, y).Some?
  {
    if n < 3 * (g.width * g.height) {
      x, y := g.width - 1, g.height - 1;
      assert x * g.height + g.height == g.width * g.height;
    } else {
      x, y := NonSquareCell(g);
    }
  }

  /** A cell of a non-square grid that the loops draw outside the image. */
  lemma {:induction false} NonSquareCell(g: Grid) returns (x: nat, y: nat)
    requires g.Valid() && !Square(g)
    ensures x < g.x2 && y < g.y2 && !g.Fits(x, y)
    ensures g.InData(x, y) || g.PaddingDrawn(x, y)
  {
    if g.x2 < g.y2 {
      x, y := 0, g.ImageWidth();
    } else {
      x, y := g.ImageHeight(), 0;
    }
  }

  /** What a failed read raises says what is wrong: `struct.error` only on a
      file shorter than its samples, `IndexError` only on a grid that is
      not `Square`. */
  lemma {:induction false} ReadFailure(g: Grid, n: nat)
    requires g.Valid() && FirstFail(g, n, 0, 0).Some?
    ensures FirstFail(g, n, 0, 0) == Some(Truncated) || FirstFail(g, n, 0, 0) == Some(IndexOutOfRange)
    ensures FirstFail(g, n, 0, 0) == Some(Truncated) ==> n < 3 * (g.width * g.height)
    ensures FirstFail(g, n, 0, 0) == Some(IndexOutOfRange) ==> !Square(g)
  {
    FirstFailSome(g, n, 0, 0);
    var i: nat, j: nat :| i < g.x2 && j < g.y2 && CellFails(g, n, i, j) == FirstFail(g, n, 0, 0);
    if g.InData(i, j) {
      DataCellInside(g, i, j);
    }
    if Square(g) && (g.InData(i, j) || g.PaddingDrawn(i, j)) {
      DrawnCellsFit(g, i, j);
    }
  }

  /** The heights of a successful read: `x2 * y2` of them, the sample
      `(x, y)` at index `x * y2 + y`, zero for padding and `b | g << 8` of
      triple `x * height + y` otherwise. */
  lemma {:induction false} ReadSamples(g: Grid, file: seq<Byte>, x: nat, y: nat)
    requires g.Valid() && |file| >= 3 * (g.width * g.height)
    requires x < g.x2 && y < g.y2
    ensures |Samples(g, file)| == g.x2 * g.y2
    ensures x * g.y2 + y < g.x2 * g.y2
    ensures !g.InData(x, y) ==> Samples(g, file)[x * g.y2 + y] == 0
    ensures g.InData(x, y) ==>
      && 0 <= g.Offset(x, y) && g.Offset(x, y) + 3 <= |file|
      && Samples(g, file)[x * g.y2 + y] == Height(file[g.Offset(x, y)], file[g.Offset(x, y) + 1])
  {
    RowsAt(g, file, g.x2, x, y);
    if g.InData(x, y) {
      DataCellInside(g, x, y);
    }
  }

  /** The detail image of a successful read: the `r` byte of each in-data
      sample at row `x`, column `y`, black elsewhere. */
  lemma {:induction false} ReadDetail(g: Grid, file: seq<Byte>, x: nat, y: nat)
    requires g.Valid() && |file| >= 3 * (g.width * g.height)
    requires x < g.ImageHeight() && y < g.ImageWidth()
    ensures !g.InData(x, y) ==> Detail(g, file)[x][y] == 0
    ensures g.InData(x, y) ==>
      && 0 <= g.Offset(x, y) && g.Offset(x, y) + 3 <= |file|
      && Detail(g, file)[x][y] == file[g.Offset(x, y) + 2]
  {
    if g.InData(x, y) {
      DataCellInside(g, x, y);
    }
  }

  /** Bytes past the last triple are never looked at. */
  lemma {:induction false} TrailingIgnored(g: Grid, file: seq<Byte>, rest: seq<Byte>)
    requires g.Valid() && |file| >= 3 * (g.width * g.height)
    ensures FirstFail(g, |file + rest|, 0, 0) == FirstFail(g, |file|, 0, 0)
    ensures Samples(g, file + rest) == Samples(g, file)
    ensures Detail(g, file + rest) == Detail(g, file)
  {
    ReadSucceeds(g, |file + rest|);
    ReadSucceeds(g, |file|);
    if !Square(g) {
      ReadFailure(g, |file + rest|);
      ReadFailure(g, |file|);
    }
    SamplesIgnoreTrailing(g, file, rest);
    DetailIgnoreTrailing(g, file, rest);
  }

  lemma {:induction false} SamplesIgnoreTrailing(g: Grid, file: seq<Byte>, rest: seq<Byte>)
    requires g.Valid() && |file| >= 3 * (g.width * g.height)
    ensures Samples(g, file + rest) == Samples(g, file)
  {
    var a, b := Samples(g, file + rest), Samples(g, file);
    RowsLength(g, file, g.x2);
    RowsLength(g, file + rest, g.x2);
    forall k | 0 <= k < |a|
      ensures a[k] == b[k]
    {
      var x, y := GridCell(g.x2, g.y2, k);
      ReadSamples(g, file + rest, x, y);
      ReadSamples(g, file, x, y);
    }
  }

  lemma {:induction false} DetailIgnoreTrailing(g: Grid, file: seq<Byte>, rest: seq<Byte>)
    requires g.Valid() && |file| >= 3 * (g.width * g.height)
    ensures Detail(g, file + rest) == Detail(g, file)
  {
    var c, d := Detail(g, file + rest), Detail(g, file);
    forall x | 0 <= x < |c|
      ensures c[x] == d[x]
    {
      forall y | 0 <= y < |c[x]|
        ensures c[x][y] == d[x][y]
      {
        ReadDetail(g, file + rest, x, y);
        ReadDetail(g, file, x, y);
      }
    }
  }

  /** Every index below `x2 * y2` is `x * y2 + y` for a cell of the grid. */
  lemma {:induction false} GridCell(x2: nat, y2: nat, k: nat) returns (x: nat, y: nat)
    requires k < x2 * y2
    ensures x < x2 && y < y2 && k == x * y2 + y
  {
    x, y := k / y2, k % y2;
  }
}
