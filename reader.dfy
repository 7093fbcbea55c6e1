/** The cursor every decoder shares: a file opened for reading is an immutable
    byte string plus a position, and `struct.unpack(fmt, f.read(n))` either
    yields the next `n` bytes and moves the position past them, or fails
    because fewer than `n` bytes are left. */
module Reader {
  import opened Bytes
  import opened Outcome

  /** The `n` bytes at `pos`, or `Truncated` when the buffer ends first. */
  function Read(data: seq<Byte>, pos: nat, n: nat): (r: Result<seq<Byte>>)
    ensures r.Ok? <==> pos + n <= |data|
    ensures r.Ok? ==> |r.value| == n
    ensures r.Err? ==> r.error == Truncated
  {
    if pos + n <= |data| then Ok(data[pos..pos + n]) else Err(Truncated)
  }

  /** `<i` at the cursor. */
  function ReadI32(data: seq<Byte>, pos: nat): (r: Result<int>)
    ensures r.Ok? <==> pos + 4 <= |data|
    ensures r.Ok? ==> -TWO_31 <= r.value < TWO_31
  {
    var b :- Read(data, pos, 4);
    Ok(I32(b))
  }

  /** `<h` at the cursor. */
  function ReadI16(data: seq<Byte>, pos: nat): (r: Result<int>)
    ensures r.Ok? <==> pos + 2 <= |data|
    ensures r.Ok? ==> -0x8000 <= r.value < 0x8000
  {
    var b :- Read(data, pos, 2);
    Ok(I16(b))
  }

  /** One `<f` or `<I` field at the cursor, as its bit pattern. */
  function ReadWord(data: seq<Byte>, pos: nat): (r: Result<Word32>)
    ensures r.Ok? <==> pos + 4 <= |data|
  {
    var b :- Read(data, pos, 4);
    Ok(U32(b))
  }

  /** `<nf` at the cursor: `n` consecutive words. */
  function ReadWords(data: seq<Byte>, pos: nat, n: nat): (r: Result<seq<Word32>>)
    ensures r.Ok? <==> pos + 4 * n <= |data|
    ensures r.Ok? ==> |r.value| == n
  {
    var b :- Read(data, pos, 4 * n);
    Ok(DecodeWords(b))
  }

  lemma {:induction false} ReadWordRoundTrip(w: Word32, data: seq<Byte>, pos: nat)
    requires pos + 4 <= |data| && data[pos..pos + 4] == EncodeU32(w)
    ensures ReadWord(data, pos) == Ok(w)
  {
    U32RoundTrip(w);
  }

  lemma {:induction false} ReadWordSound(data: seq<Byte>, pos: nat)
    requires ReadWord(data, pos).Ok?
    ensures data[pos..pos + 4] == EncodeU32(ReadWord(data, pos).value)
  {
    U32Inverse(data[pos..pos + 4]);
  }

  lemma {:induction false} ReadWordsRoundTrip(ws: seq<Word32>, data: seq<Byte>, pos: nat)
    requires pos + 4 * |ws| <= |data| && data[pos..pos + 4 * |ws|] == EncodeWords(ws)
    ensures ReadWords(data, pos, |ws|) == Ok(ws)
  {
    WordsRoundTrip(ws);
  }

  lemma {:induction false} ReadWordsSound(data: seq<Byte>, pos: nat, n: nat)
    requires ReadWords(data, pos, n).Ok?
    ensures data[pos..pos + 4 * n] == EncodeWords(ReadWords(data, pos, n).value)
  {
    WordsInverse(data[pos..pos + 4 * n]);
  }

  lemma {:induction false} ReadI16RoundTrip(v: int, data: seq<Byte>, pos: nat)
    requires -0x8000 <= v < 0x8000
    requires pos + 2 <= |data| && data[pos..pos + 2] == EncodeI16(v)
    ensures ReadI16(data, pos) == Ok(v)
  {
    I16RoundTrip(v);
  }

  lemma {:induction false} ReadI16Sound(data: seq<Byte>, pos: nat)
    requires ReadI16(data, pos).Ok?
    ensures data[pos..pos + 2] == EncodeI16(ReadI16(data, pos).value)
  {
    I16Inverse(data[pos..pos + 2]);
  }

  lemma {:induction false} ReadI32RoundTrip(v: int, data: seq<Byte>, pos: nat)
    requires -TWO_31 <= v < TWO_31
    requires pos + 4 <= |data| && data[pos..pos + 4] == EncodeI32(v)
    ensures ReadI32(data, pos) == Ok(v)
  {
    I32RoundTrip(v);
  }

  lemma {:induction false} ReadI32Sound(data: seq<Byte>, pos: nat)
    requires ReadI32(data, pos).Ok?
    ensures data[pos..pos + 4] == EncodeI32(ReadI32(data, pos).value)
  {
    I32Inverse(data[pos..pos + 4]);
  }

  /** How many times `for i in range(n)` runs: never for a negative `n`. */
  function RangeLength(n: int): (k: nat)
    ensures n >= 0 ==> k == n
    ensures n < 0 ==> k == 0
  {
    if n < 0 then 0 else n
  }

  /** The outcome of a count-driven loop over the cursor: the items appended
      before the loop stopped, and either the final cursor position or the
      error that stopped it. */
  datatype Run<T> = Run(items: seq<T>, end: Result<nat>)

  /** `for i in range(k): item = entry(cursor, i)`: runs `entry` `k` times,
      each time at the position the previous one left, stopping at the first
      failure with the items decoded so far. `entry` is given the iteration
      number, as the loops that number their rows use it. */
  function Repeat<T>(entry: (seq<Byte>, nat, nat) -> Result<(T, nat)>, data: seq<Byte>, pos: nat, k: nat): (r: Run<T>)
    ensures |r.items| <= k
    ensures r.end.Ok? ==> |r.items| == k
  {
    if k == 0 then Run([], Ok(pos))
    else
      var prev := Repeat(entry, data, pos, k - 1);
      if prev.end.Err? then prev
      else
        match entry(data, prev.end.value, k - 1)
        case Ok(step) => Run(prev.items + [step.0], Ok(step.1))
        case Err(e) => Run(prev.items, Err(e))
  }

  /** Once an iteration fails, later iterations are never run: the outcome of
      a longer loop is the outcome of the shorter one. */
  lemma {:induction false} RepeatStops<T>(entry: (seq<Byte>, nat, nat) -> Result<(T, nat)>, data: seq<Byte>, pos: nat, i: nat, j: nat)
    requires i <= j
    requires Repeat(entry, data, pos, i).end.Err?
    ensures Repeat(entry, data, pos, j) == Repeat(entry, data, pos, i)
    decreases j
  {
    if j > i {
      RepeatStops(entry, data, pos, i, j - 1);
    }
  }

  /** The iteration that fails ends the loop with its error and the items
      read before it. */
  lemma {:induction false} RepeatFailsAt<T>(entry: (seq<Byte>, nat, nat) -> Result<(T, nat)>, data: seq<Byte>, pos: nat, i: nat, items: seq<T>, p: nat, k: nat)
    requires i < k
    requires Repeat(entry, data, pos, i) == Run(items, Ok(p))
    requires entry(data, p, i).Err?
    ensures Repeat(entry, data, pos, k) == Run(items, Err(entry(data, p, i).error))
  {
    RepeatStops(entry, data, pos, i + 1, k);
  }

  /** Items come out in iteration order: a shorter loop's items are a prefix
      of a longer loop's. */
  lemma {:induction false} RepeatPrefix<T>(entry: (seq<Byte>, nat, nat) -> Result<(T, nat)>, data: seq<Byte>, pos: nat, i: nat, j: nat)
    requires i <= j
    ensures Repeat(entry, data, pos, i).items <= Repeat(entry, data, pos, j).items
    decreases j
  {
    if j > i {
      RepeatPrefix(entry, data, pos, i, j - 1);
      var prev := Repeat(entry, data, pos, j - 1);
      assert prev.items <= Repeat(entry, data, pos, j).items;
    }
  }

  /** When every iteration consumes exactly `width` bytes, `k` successful
      iterations consume exactly `k * width` bytes. */
  lemma {:induction false} RepeatFixedWidth<T>(entry: (seq<Byte>, nat, nat) -> Result<(T, nat)>, width: nat, data: seq<Byte>, pos: nat, k: nat)
    requires forall d: seq<Byte>, p: nat, i: nat :: entry(d, p, i).Ok? ==> entry(d, p, i).value.1 == p + width
    requires Repeat(entry, data, pos, k).end.Ok?
    ensures Repeat(entry, data, pos, k).end.value == pos + k * width
    decreases k
  {
    if k > 0 {
      RepeatFixedWidth(entry, width, data, pos, k - 1);
    }
  }

  /** When every iteration reads exactly `width` bytes and fails only for
      want of them, `k` iterations succeed exactly when `k * width` bytes
      are left. */
  lemma {:induction false} RepeatFits<T>(entry: (seq<Byte>, nat, nat) -> Result<(T, nat)>, width: nat, data: seq<Byte>, pos: nat, k: nat)
    requires forall d: seq<Byte>, p: nat, i: nat :: entry(d, p, i).Ok? <==> p + width <= |d|
    requires forall d: seq<Byte>, p: nat, i: nat :: entry(d, p, i).Ok? ==> entry(d, p, i).value.1 == p + width
    requires pos <= |data|
    ensures Repeat(entry, data, pos, k).end.Ok? <==> pos + k * width <= |data|
    ensures Repeat(entry, data, pos, k).end.Ok? ==> Repeat(entry, data, pos, k).end.value == pos + k * width
    ensures pos + |Repeat(entry, data, pos, k).items| * width <= |data|
    ensures Repeat(entry, data, pos, k).end.Err? ==> pos + (|Repeat(entry, data, pos, k).items| + 1) * width > |data|
    decreases k
  {
    if k > 0 {
      RepeatFits(entry, width, data, pos, k - 1);
      assert (k - 1) * width + width == k * width;
    }
  }

  /** With a fixed width, item `j` is what `entry` decodes at `pos + j * width`. */
  lemma {:induction false} RepeatFixedItems<T>(entry: (seq<Byte>, nat, nat) -> Result<(T, nat)>, width: nat, data: seq<Byte>, pos: nat, k: nat)
    requires forall d: seq<Byte>, p: nat, i: nat :: entry(d, p, i).Ok? ==> entry(d, p, i).value.1 == p + width
    ensures var r := Repeat(entry, data, pos, k);
      forall j :: 0 <= j < |r.items| ==> entry(data, pos + j * width, j).Ok? && r.items[j] == entry(data, pos + j * width, j).value.0
    decreases k
  {
    if k > 0 {
      RepeatFixedItems(entry, width, data, pos, k - 1);
      var prev := Repeat(entry, data, pos, k - 1);
      if prev.end.Ok? {
        RepeatFixedWidth(entry, width, data, pos, k - 1);
        assert |prev.items| == k - 1;
      }
    }
  }

  /** Where the encoding of `xs[k]` starts when the encodings of `xs` are
      laid out from `pos`. */
  function Offset<T>(enc: T -> seq<Byte>, xs: seq<T>, pos: nat, k: nat): nat
    requires k <= |xs|
  {
    pos + |Concat(enc, xs[..k])|
  }

  /** `entry` decodes each item of `xs` where the concatenated encodings put
      it. */
  ghost predicate DecodesAll<T>(entry: (seq<Byte>, nat, nat) -> Result<(T, nat)>, enc: T -> seq<Byte>, xs: seq<T>, data: seq<Byte>, pos: nat)
  {
    forall k {:trigger entry(data, Offset(enc, xs, pos, k), k)} | 0 <= k < |xs| ::
      entry(data, Offset(enc, xs, pos, k), k) == Ok((xs[k], Offset(enc, xs, pos, k + 1)))
  }

  /** One more iteration after a successful run appends the new item. */
  lemma {:induction false} RepeatStep<T>(entry: (seq<Byte>, nat, nat) -> Result<(T, nat)>, data: seq<Byte>, pos: nat, n: nat, items: seq<T>, p: nat, x: T, q: nat)
    requires Repeat(entry, data, pos, n) == Run(items, Ok(p))
    requires entry(data, p, n) == Ok((x, q))
    ensures Repeat(entry, data, pos, n + 1) == Run(items + [x], Ok(q))
  {
  }

  /** A buffer holding `a + b` at `pos` holds `a` at `pos` and `b` right after. */
  lemma {:induction false} SliceSplit(data: seq<Byte>, pos: nat, a: seq<Byte>, b: seq<Byte>)
    requires pos + |a + b| <= |data| && data[pos..pos + |a + b|] == a + b
    ensures data[pos..pos + |a|] == a
    ensures data[pos + |a|..pos + |a| + |b|] == b
  {
    assert data[pos..pos + |a|] == (a + b)[..|a|];
    assert data[pos + |a|..pos + |a| + |b|] == (a + b)[|a|..];
  }

  /** Adjacent slices join. */
  lemma {:induction false} SliceJoin(data: seq<Byte>, p: nat, m: nat, q: nat)
    requires p <= m <= q <= |data|
    ensures data[p..q] == data[p..m] + data[m..q]
  {
  }

  lemma {:induction false} SliceJoin5(data: seq<Byte>, p0: nat, p1: nat, p2: nat, p3: nat, p4: nat, p5: nat)
    requires p0 <= p1 <= p2 <= p3 <= p4 <= p5 <= |data|
    ensures data[p0..p5] == data[p0..p1] + data[p1..p2] + data[p2..p3] + data[p3..p4] + data[p4..p5]
  {
    SliceJoin(data, p0, p4, p5);
    SliceJoin(data, p0, p3, p4);
    SliceJoin(data, p0, p2, p3);
    SliceJoin(data, p0, p1, p2);
  }

  /** `entry` reads back exactly the encoding of whatever it returns. */
  ghost predicate EncodesEach<T>(entry: (seq<Byte>, nat, nat) -> Result<(T, nat)>, enc: T -> seq<Byte>)
  {
    forall d: seq<Byte>, p: nat, i: nat | entry(d, p, i).Ok? ::
      p + |enc(entry(d, p, i).value.0)| <= |d| && entry(d, p, i).value.1 == p + |enc(entry(d, p, i).value.0)| &&
      d[p..entry(d, p, i).value.1] == enc(entry(d, p, i).value.0)
  }

  /** Decoding the concatenated encodings of `xs` gives `xs` back and leaves
      the cursor just past them, provided that the entry decodes each item
      where it sits. */
  lemma {:induction false} RepeatRoundTrip<T>(entry: (seq<Byte>, nat, nat) -> Result<(T, nat)>, enc: T -> seq<Byte>, xs: seq<T>, data: seq<Byte>, pos: nat)
    requires DecodesAll(entry, enc, xs, data, pos)
    ensures Repeat(entry, data, pos, |xs|) == Run(xs, Ok(Offset(enc, xs, pos, |xs|)))
    decreases |xs|
  {
    if xs != [] {
      var n := |xs| - 1;
      var front := xs[..n];
      forall k | 0 <= k <= n
        ensures Offset(enc, front, pos, k) == Offset(enc, xs, pos, k)
      {
        assert front[..k] == xs[..k];
      }
      assert DecodesAll(entry, enc, front, data, pos) by {
        forall k | 0 <= k < n
          ensures entry(data, Offset(enc, front, pos, k), k) == Ok((front[k], Offset(enc, front, pos, k + 1)))
        {
        }
      }
      RepeatRoundTrip(entry, enc, front, data, pos);
      assert entry(data, Offset(enc, xs, pos, n), n) == Ok((xs[n], Offset(enc, xs, pos, n + 1)));
      RepeatStep(entry, data, pos, n, front, Offset(enc, xs, pos, n), xs[n], Offset(enc, xs, pos, n + 1));
      assert front + [xs[n]] == xs;
    }
  }

  /** The same, with the end position written as the length of the whole
      encoding. */
  lemma {:induction false} RepeatReadsAll<T>(entry: (seq<Byte>, nat, nat) -> Result<(T, nat)>, enc: T -> seq<Byte>, xs: seq<T>, data: seq<Byte>, pos: nat)
    requires DecodesAll(entry, enc, xs, data, pos)
    ensures Repeat(entry, data, pos, |xs|) == Run(xs, Ok(pos + |Concat(enc, xs)|))
  {
    RepeatRoundTrip(entry, enc, xs, data, pos);
    assert xs[..|xs|] == xs;
  }

  /** The encodings of a prefix of `xs` are a prefix of the encodings of
      `xs`. */
  lemma {:induction false} ConcatPrefix<T>(enc: T -> seq<Byte>, xs: seq<T>, k: nat)
    requires k <= |xs|
    ensures Concat(enc, xs[..k]) <= Concat(enc, xs)
    decreases |xs|
  {
    if k < |xs| {
      var n := |xs| - 1;
      assert xs[..n][..k] == xs[..k];
      ConcatPrefix(enc, xs[..n], k);
    } else {
      assert xs[..k] == xs;
    }
  }

  /** Item `k`'s encoding sits between offsets `k` and `k + 1`. */
  lemma {:induction false} ConcatAt<T>(enc: T -> seq<Byte>, xs: seq<T>, k: nat)
    requires k < |xs|
    ensures var a, b := |Concat(enc, xs[..k])|, |Concat(enc, xs[..k + 1])|;
      b == a + |enc(xs[k])| <= |Concat(enc, xs)| && Concat(enc, xs)[a..b] == enc(xs[k])
  {
    assert xs[..k + 1][..k] == xs[..k];
    ConcatPrefix(enc, xs, k + 1);
  }

  /** A buffer holding the encodings of `xs` at `pos` holds item `k`'s
      encoding at its offset. */
  lemma {:induction false} ItemAt<T>(enc: T -> seq<Byte>, xs: seq<T>, data: seq<Byte>, pos: nat, k: nat)
    requires k < |xs|
    requires pos + |Concat(enc, xs)| <= |data| && data[pos..pos + |Concat(enc, xs)|] == Concat(enc, xs)
    ensures var a := Offset(enc, xs, pos, k);
      Offset(enc, xs, pos, k + 1) == a + |enc(xs[k])| <= |data| && data[a..a + |enc(xs[k])|] == enc(xs[k])
  {
    ConcatAt(enc, xs, k);
    var c := Concat(enc, xs);
    var a, b := |Concat(enc, xs[..k])|, |Concat(enc, xs[..k + 1])|;
    SliceOfSlice(data, pos, |c|, a, b);
  }

  lemma {:induction false} SliceOfSlice(data: seq<Byte>, p: nat, n: nat, a: nat, b: nat)
    requires a <= b <= n && p + n <= |data|
    ensures data[p..p + n][a..b] == data[p + a..p + b]
  {
    var s := data[p..p + n];
    assert forall j :: a <= j < b ==> s[j] == data[p + j];
  }

  /** The concatenated encodings of a list, in order. */
  function Concat<T>(enc: T -> seq<Byte>, xs: seq<T>): seq<Byte>
  {
    if xs == [] then [] else Concat(enc, xs[..|xs| - 1]) + enc(xs[|xs| - 1])
  }

  /** A fixed-width list: each item takes `width` bytes. */
  lemma {:induction false} ConcatLength<T>(enc: T -> seq<Byte>, width: nat, xs: seq<T>)
    requires forall k :: 0 <= k < |xs| ==> |enc(xs[k])| == width
    ensures |Concat(enc, xs)| == |xs| * width
    decreases |xs|
  {
    if xs != [] {
      var n := |xs| - 1;
      assert forall k :: 0 <= k < n ==> xs[..n][k] == xs[k];
      ConcatLength(enc, width, xs[..n]);
      assert |Concat(enc, xs)| == n * width + width;
      assert (n + 1) * width == n * width + width;
    }
  }

  /** The loop run on a buffer that holds the encodings of `xs` decodes them
      in order and stops where they end. */
  lemma {:induction false} RepeatSound<T>(entry: (seq<Byte>, nat, nat) -> Result<(T, nat)>, enc: T -> seq<Byte>, data: seq<Byte>, pos: nat, k: nat)
    requires EncodesEach(entry, enc)
    requires pos <= |data|
    requires Repeat(entry, data, pos, k).end.Ok?
    ensures var r := Repeat(entry, data, pos, k);
      r.end.value == pos + |Concat(enc, r.items)| <= |data| && data[pos..r.end.value] == Concat(enc, r.items)
    decreases k
  {
    if k > 0 {
      RepeatSound(entry, enc, data, pos, k - 1);
      var prev := Repeat(entry, data, pos, k - 1);
      var r := Repeat(entry, data, pos, k);
      var q := prev.end.value;
      var step := entry(data, q, k - 1).value;
      var x := step.0;
      assert q + |enc(x)| <= |data| && step.1 == q + |enc(x)| && data[q..step.1] == enc(x);
      assert r.items == prev.items + [x];
      assert r.items[..|r.items| - 1] == prev.items;
      assert Concat(enc, r.items) == Concat(enc, prev.items) + enc(x);
      assert data[pos..r.end.value] == data[pos..q] + data[q..r.end.value];
    }
  }

  /** A list behind its `<i` count, as the table formats lay them out. */
  function Counted<T>(enc: T -> seq<Byte>, xs: seq<T>): (s: seq<Byte>)
    requires |xs| < TWO_31
    ensures |s| == 4 + |Concat(enc, xs)|
  {
    EncodeI32(|xs|) + Concat(enc, xs)
  }

  /** A counted list at `pos` reads its count back and holds the encodings
      right after it. */
  lemma {:induction false} CountedRead<T>(enc: T -> seq<Byte>, xs: seq<T>, data: seq<Byte>, pos: nat)
    requires |xs| < TWO_31
    requires pos + |Counted(enc, xs)| <= |data| && data[pos..pos + |Counted(enc, xs)|] == Counted(enc, xs)
    ensures ReadI32(data, pos) == Ok(|xs|)
    ensures data[pos + 4..pos + 4 + |Concat(enc, xs)|] == Concat(enc, xs)
  {
    SliceSplit(data, pos, EncodeI32(|xs|), Concat(enc, xs));
    ReadI32RoundTrip(|xs|, data, pos);
  }

  /** `entry`, run at `p` on bytes holding the encoding of `x` there,
      reads `x` back and stops right after it. */
  ghost predicate ReadsBackAt<T>(entry: (seq<Byte>, nat, nat) -> Result<(T, nat)>, enc: T -> seq<Byte>, x: T, d: seq<Byte>, p: nat, i: nat)
  {
    p + |enc(x)| <= |d| && d[p..p + |enc(x)|] == enc(x) ==> entry(d, p, i) == Ok((x, p + |enc(x)|))
  }

  /** `entry` reads each item of `xs` back from its encoding, wherever the
      encoding sits and whatever the iteration number. */
  ghost predicate ReadsBack<T>(entry: (seq<Byte>, nat, nat) -> Result<(T, nat)>, enc: T -> seq<Byte>, xs: seq<T>)
  {
    forall k, d: seq<Byte>, p: nat, i: nat | 0 <= k < |xs| :: ReadsBackAt(entry, enc, xs[k], d, p, i)
  }

  /** At `pos` a count of `|items|`, and the loop `for i in range(count)`
      it drives appends `items` and leaves the cursor at `next`. */
  ghost predicate ReadsCounted<T>(entry: (seq<Byte>, nat, nat) -> Result<(T, nat)>, data: seq<Byte>, pos: nat, items: seq<T>, next: nat)
  {
    ReadI32(data, pos) == Ok(|items|) && Repeat(entry, data, pos + 4, |items|) == Run(items, Ok(next))
  }

  /** Items that all read back, laid out one after another at `pos`, are
      each decoded where they sit. */
  lemma {:induction false} ReadsBackDecodesAll<T>(entry: (seq<Byte>, nat, nat) -> Result<(T, nat)>, enc: T -> seq<Byte>, xs: seq<T>,
                                                  data: seq<Byte>, pos: nat)
    requires ReadsBack(entry, enc, xs)
    requires pos + |Concat(enc, xs)| <= |data| && data[pos..pos + |Concat(enc, xs)|] == Concat(enc, xs)
    ensures DecodesAll(entry, enc, xs, data, pos)
  {
    forall k | 0 <= k < |xs|
      ensures entry(data, Offset(enc, xs, pos, k), k) == Ok((xs[k], Offset(enc, xs, pos, k + 1)))
    {
      ItemAt(enc, xs, data, pos, k);
      assert ReadsBackAt(entry, enc, xs[k], data, Offset(enc, xs, pos, k), k);
    }
  }

  /** A counted list whose items all read back: the count comes back, and
      the loop it drives reads every item and stops right after the list. */
  lemma {:induction false} CountedReadsBack<T>(entry: (seq<Byte>, nat, nat) -> Result<(T, nat)>, enc: T -> seq<Byte>, xs: seq<T>, data: seq<Byte>, pos: nat)
    requires |xs| < TWO_31 && ReadsBack(entry, enc, xs)
    requires pos + |Counted(enc, xs)| <= |data| && data[pos..pos + |Counted(enc, xs)|] == Counted(enc, xs)
    ensures ReadsCounted(entry, data, pos, xs, pos + |Counted(enc, xs)|)
  {
    CountedRead(enc, xs, data, pos);
    ReadsBackDecodesAll(entry, enc, xs, data, pos + 4);
    RepeatReadsAll(entry, enc, xs, data, pos + 4);
    assert pos + 4 + |Concat(enc, xs)| == pos + |Counted(enc, xs)|;
  }

  /** Three counted lists one after another from `p0`, as a file with
      three segments lays them out: each count comes back, and each loop
      reads its whole list and stops where the next count starts. */
  lemma {:induction false} ThreeCountedReadBack<A, B, C>(
      ea: (seq<Byte>, nat, nat) -> Result<(A, nat)>, encA: A -> seq<Byte>, xs: seq<A>,
      eb: (seq<Byte>, nat, nat) -> Result<(B, nat)>, encB: B -> seq<Byte>, ys: seq<B>,
      ec: (seq<Byte>, nat, nat) -> Result<(C, nat)>, encC: C -> seq<Byte>, zs: seq<C>,
      data: seq<Byte>, p0: nat, p1: nat, p2: nat, p3: nat)
    requires |xs| < TWO_31 && ReadsBack(ea, encA, xs)
    requires |ys| < TWO_31 && ReadsBack(eb, encB, ys)
    requires |zs| < TWO_31 && ReadsBack(ec, encC, zs)
    requires p1 == p0 + |Counted(encA, xs)| && p2 == p1 + |Counted(encB, ys)| && p3 == p2 + |Counted(encC, zs)|
    requires p3 <= |data| && data[p0..p3] == Counted(encA, xs) + Counted(encB, ys) + Counted(encC, zs)
    ensures ReadsCounted(ea, data, p0, xs, p1)
    ensures ReadsCounted(eb, data, p1, ys, p2)
    ensures ReadsCounted(ec, data, p2, zs, p3)
  {
    SliceSplit(data, p0, Counted(encA, xs) + Counted(encB, ys), Counted(encC, zs));
    SliceSplit(data, p0, Counted(encA, xs), Counted(encB, ys));
    CountedReadsBack(ea, encA, xs, data, p0);
    CountedReadsBack(eb, encB, ys, data, p1);
    CountedReadsBack(ec, encC, zs, data, p2);
  }

  /** Every item a loop appends is one that `entry` can return. */
  lemma {:induction false} RepeatItems<T>(entry: (seq<Byte>, nat, nat) -> Result<(T, nat)>, P: T -> bool, data: seq<Byte>, pos: nat, k: nat)
    requires forall d: seq<Byte>, p: nat, i: nat :: entry(d, p, i).Ok? ==> P(entry(d, p, i).value.0)
    ensures forall j :: 0 <= j < |Repeat(entry, data, pos, k).items| ==> P(Repeat(entry, data, pos, k).items[j])
    decreases k
  {
    if k > 0 {
      RepeatItems(entry, P, data, pos, k - 1);
    }
  }
}
