/** Little-endian fixed-width integers over byte strings: the value side of
    Python's `struct` codes `B`, `H`, `h`, `I`, `i` with the `<` prefix. */
module Bytes {

  type Byte = x: int | 0 <= x < 0x100

  /** A 32-bit word; the f32 fields of the formats are carried as their bit
      patterns and never interpreted as numbers. */
  type Word32 = x: int | 0 <= x < 0x1_0000_0000

  /** A 16-bit unsigned value, as `<H` yields it. */
  type Word16 = x: int | 0 <= x < 0x1_0000

  /** A byte string of at most 0x7FFF bytes: what an `<h` length prefix can
      announce. */
  type ShortBytes = s: seq<Byte> | |s| < 0x8000 witness []

  /** A value of `<i`. */
  type Int32 = x: int | -0x8000_0000 <= x < 0x8000_0000

  const TWO_16: int := 0x1_0000
  const TWO_31: int := 0x8000_0000
  const TWO_32: int := 0x1_0000_0000

  /** `<H`: unsigned 16-bit, low byte first. */
  function U16(s: seq<Byte>): (v: int)
    requires |s| == 2
    ensures 0 <= v < TWO_16
    ensures v % 0x100 == s[0] && v / 0x100 == s[1]
  {
    s[0] as int + 0x100 * s[1] as int
  }

  /** `<I`: unsigned 32-bit, low byte first. */
  function U32(s: seq<Byte>): (v: Word32)
    requires |s| == 4
    ensures v % 0x1_0000 == U16(s[..2]) && v / 0x1_0000 == U16(s[2..])
  {
    U16(s[..2]) + TWO_16 * U16(s[2..])
  }

  /** `<h`: two's-complement signed 16-bit. */
  function I16(s: seq<Byte>): (v: int)
    requires |s| == 2
    ensures -0x8000 <= v < 0x8000
    ensures v < 0 <==> s[1] >= 0x80
  {
    var u := U16(s);
    if u < 0x8000 then u else u - TWO_16
  }

  /** `<i`: two's-complement signed 32-bit. */
  function I32(s: seq<Byte>): (v: int)
    requires |s| == 4
    ensures -TWO_31 <= v < TWO_31
    ensures v < 0 <==> s[3] >= 0x80
  {
    var u := U32(s);
    if u < TWO_31 then u else u - TWO_32
  }

  /** The bit pattern of a signed 32-bit value, as `struct` packs it. */
  function Unsigned32(v: int): (u: Word32)
    requires -TWO_31 <= v < TWO_31
    ensures u % TWO_32 == v % TWO_32
  {
    if v < 0 then v + TWO_32 else v
  }

  /** The two's-complement reading of a word: what `<i` yields for the
      bytes `<I` reads as `w`. */
  function Signed(w: Word32): (v: Int32)
    ensures Unsigned32(v) == w
  {
    if w < TWO_31 then w else w - TWO_32
  }

  lemma {:induction false} SignedUnsigned(v: Int32)
    ensures Signed(Unsigned32(v)) == v
  {
  }

  function EncodeU16(v: int): (s: seq<Byte>)
    requires 0 <= v < TWO_16
    ensures |s| == 2
  {
    [v % 0x100, v / 0x100]
  }

  function EncodeU32(v: Word32): (s: seq<Byte>)
    ensures |s| == 4
  {
    EncodeU16(v % TWO_16) + EncodeU16(v / TWO_16)
  }

  function EncodeI16(v: int): (s: seq<Byte>)
    requires -0x8000 <= v < 0x8000
    ensures |s| == 2
  {
    EncodeU16(if v < 0 then v + TWO_16 else v)
  }

  function EncodeI32(v: int): (s: seq<Byte>)
    requires -TWO_31 <= v < TWO_31
    ensures |s| == 4
  {
    EncodeU32(Unsigned32(v))
  }

  /** Decoding an encoded value gives the value back. */
  lemma {:induction false} U16RoundTrip(v: int)
    requires 0 <= v < TWO_16
    ensures U16(EncodeU16(v)) == v
  {
  }

  lemma {:induction false} U32RoundTrip(v: Word32)
    ensures U32(EncodeU32(v)) == v
  {
    var s := EncodeU32(v);
    assert s[..2] == EncodeU16(v % TWO_16);
    assert s[2..] == EncodeU16(v / TWO_16);
  }

  lemma {:induction false} I16RoundTrip(v: int)
    requires -0x8000 <= v < 0x8000
    ensures I16(EncodeI16(v)) == v
  {
  }

  lemma {:induction false} I32RoundTrip(v: int)
    requires -TWO_31 <= v < TWO_31
    ensures I32(EncodeI32(v)) == v
  {
    U32RoundTrip(Unsigned32(v));
  }

  /** Encoding the value read from two bytes gives those bytes back. */
  lemma {:induction false} U16Inverse(s: seq<Byte>)
    requires |s| == 2
    ensures EncodeU16(U16(s)) == s
  {
  }

  lemma {:induction false} U32Inverse(s: seq<Byte>)
    requires |s| == 4
    ensures EncodeU32(U32(s)) == s
  {
    var v := U32(s);
    assert v % TWO_16 == U16(s[..2]) && v / TWO_16 == U16(s[2..]);
    U16Inverse(s[..2]);
    U16Inverse(s[2..]);
    assert s == s[..2] + s[2..];
  }

  lemma {:induction false} I32Inverse(s: seq<Byte>)
    requires |s| == 4
    ensures EncodeI32(I32(s)) == s
  {
    U32Inverse(s);
  }

  lemma {:induction false} I16Inverse(s: seq<Byte>)
    requires |s| == 2
    ensures EncodeI16(I16(s)) == s
  {
    U16Inverse(s);
  }

  /** Concatenation of the little-endian encodings of a list of words. */
  function EncodeWords(ws: seq<Word32>): (s: seq<Byte>)
    ensures |s| == 4 * |ws|
  {
    if ws == [] then [] else EncodeWords(ws[..|ws| - 1]) + EncodeU32(ws[|ws| - 1])
  }

  /** Reading the `k`-th four-byte group of `s` as a word. */
  function WordAt(s: seq<Byte>, k: nat): Word32
    requires 4 * k + 4 <= |s|
  {
    U32(s[4 * k .. 4 * k + 4])
  }

  /** Each word of an encoded list sits in its own four-byte group. */
  lemma {:induction false} EncodeWordsAt(ws: seq<Word32>, k: nat)
    requires k < |ws|
    ensures EncodeWords(ws)[4 * k .. 4 * k + 4] == EncodeU32(ws[k])
    ensures WordAt(EncodeWords(ws), k) == ws[k]
  {
    var n := |ws| - 1;
    var prefix := EncodeWords(ws[..n]);
    assert EncodeWords(ws) == prefix + EncodeU32(ws[n]);
    if k < n {
      EncodeWordsAt(ws[..n], k);
      assert EncodeWords(ws)[4 * k .. 4 * k + 4] == prefix[4 * k .. 4 * k + 4];
    } else {
      assert EncodeWords(ws)[4 * k .. 4 * k + 4] == EncodeU32(ws[n]);
    }
    U32RoundTrip(ws[k]);
  }

  /** The words of a byte string whose length is a multiple of four: `<nf`
      read as bit patterns. */
  function DecodeWords(s: seq<Byte>): (ws: seq<Word32>)
    requires |s| % 4 == 0
    ensures |ws| == |s| / 4
    ensures forall k :: 0 <= k < |ws| ==> ws[k] == WordAt(s, k)
  {
    seq(|s| / 4, k requires 0 <= k < |s| / 4 => WordAt(s, k))
  }

  lemma {:induction false} WordsRoundTrip(ws: seq<Word32>)
    ensures DecodeWords(EncodeWords(ws)) == ws
  {
    forall k | 0 <= k < |ws|
      ensures DecodeWords(EncodeWords(ws))[k] == ws[k]
    {
      EncodeWordsAt(ws, k);
    }
  }

  /** Re-encoding the words read from a byte string gives the string back. */
  lemma {:induction false} WordsInverse(s: seq<Byte>)
    requires |s| % 4 == 0
    ensures EncodeWords(DecodeWords(s)) == s
  {
    var ws := DecodeWords(s);
    var e := EncodeWords(ws);
    forall i | 0 <= i < |s|
      ensures e[i] == s[i]
    {
      var k := i / 4;
      EncodeWordsAt(ws, k);
      U32Inverse(s[4 * k .. 4 * k + 4]);
      assert e[i] == e[4 * k .. 4 * k + 4][i - 4 * k];
      assert s[i] == s[4 * k .. 4 * k + 4][i - 4 * k];
    }
  }

  /** An ASCII text as the bytes Python's `b'...'` literal denotes. */
  function Ascii(t: string): (s: seq<Byte>)
    requires forall i :: 0 <= i < |t| ==> t[i] < 128 as char
    ensures |s| == |t|
    ensures forall i :: 0 <= i < |t| ==> s[i] == t[i] as int
  {
    seq(|t|, i requires 0 <= i < |t| => t[i] as int)
  }

  /** `bytes.lower()` on one byte: only `A`-`Z` change. */
  function LowerByte(b: Byte): (c: Byte)
    ensures 0x41 <= b <= 0x5A ==> c == b + 0x20
    ensures !(0x41 <= b <= 0x5A) ==> c == b
  {
    if 0x41 <= b <= 0x5A then b + 0x20 else b
  }

  function Lower(s: seq<Byte>): (r: seq<Byte>)
    ensures |r| == |s|
    ensures forall i :: 0 <= i < |s| ==> r[i] == LowerByte(s[i])
  {
    seq(|s|, i requires 0 <= i < |s| => LowerByte(s[i]))
  }

  predicate EndsWith(s: seq<Byte>, suffix: seq<Byte>) {
    |suffix| <= |s| && s[|s| - |suffix|..] == suffix
  }

  /** Python's strict UTF-8 decoder accepts exactly the well-formed byte
      sequences of the Unicode standard (its table of well-formed UTF-8):
      no overlong forms, no surrogates, nothing above U+10FFFF. */
  predicate ValidUtf8(s: seq<Byte>) {
    Utf8From(s, 0)
  }

  /** The bytes from `i` on decode: one well-formed sequence after
      another up to the end. */
  predicate Utf8From(s: seq<Byte>, i: nat)
    decreases |s| - i, 1
  {
    i >= |s| || Utf8Char(s, i)
  }

  /** A well-formed sequence starts at `i` and the rest decodes after it. */
  predicate Utf8Char(s: seq<Byte>, i: nat)
    requires i < |s|
    decreases |s| - i, 0
  {
    if s[i] < 0x80 then Utf8From(s, i + 1)
    else if 0xC2 <= s[i] <= 0xDF then
      i + 2 <= |s| && Continuation(s[i + 1]) && Utf8From(s, i + 2)
    else if 0xE0 <= s[i] <= 0xEF then
      i + 3 <= |s| && Continuation(s[i + 2]) &&
      (if s[i] == 0xE0 then 0xA0 <= s[i + 1] <= 0xBF
       else if s[i] == 0xED then 0x80 <= s[i + 1] <= 0x9F
       else Continuation(s[i + 1])) &&
      Utf8From(s, i + 3)
    else if 0xF0 <= s[i] <= 0xF4 then
      i + 4 <= |s| && Continuation(s[i + 2]) && Continuation(s[i + 3]) &&
      (if s[i] == 0xF0 then 0x90 <= s[i + 1] <= 0xBF
       else if s[i] == 0xF4 then 0x80 <= s[i + 1] <= 0x8F
       else Continuation(s[i + 1])) &&
      Utf8From(s, i + 4)
    else false
  }

  predicate Continuation(b: Byte) {
    0x80 <= b <= 0xBF
  }

  predicate IsAscii(s: seq<Byte>) {
    forall i :: 0 <= i < |s| ==> s[i] < 0x80
  }

  /** Pure ASCII always decodes. */
  lemma {:induction false} AsciiIsValidUtf8(s: seq<Byte>)
    requires IsAscii(s)
    ensures ValidUtf8(s)
  {
    AsciiFrom(s, 0);
  }

  lemma {:induction false} AsciiFrom(s: seq<Byte>, i: nat)
    requires IsAscii(s)
    ensures Utf8From(s, i)
    decreases |s| - i
  {
    if i < |s| {
      AsciiFrom(s, i + 1);
      assert Utf8Char(s, i);
    }
  }

  /** A lone continuation byte or a stray lead byte is rejected wherever it
      starts the text. */
  lemma {:induction false} InvalidLeadByte(s: seq<Byte>)
    requires s != [] && (0x80 <= s[0] <= 0xC1 || s[0] >= 0xF5)
    ensures !ValidUtf8(s)
  {
    assert !Utf8Char(s, 0);
  }
}
