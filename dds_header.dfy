/** The DDS header the cover converter writes in front of every tile: eleven
    `pack` calls into a zeroed 128-byte buffer, sharing one offset. */
module DdsHeader {
  import opened Bytes
  import opened Outcome
  import opened Packing

  const HEADER_SIZE: nat := 128
  /** `DDSD_CAPS | DDSD_HEIGHT | DDSD_WIDTH | DDSD_PIXELFORMAT | DDSD_MIPMAPCOUNT`. */
  const HEADER_FLAGS: int := 0x21007
  /** `DDPF_FOURCC`. */
  const PIXEL_FORMAT_FLAGS: int := 0x04
  /** `DXT1` read as a little-endian integer. */
  const FOURCC_DXT1: int := 0x31545844
  /** `DDSCAPS_COMPLEX | DDSCAPS_TEXTURE | DDSCAPS_MIPMAP`. */
  const CAPS: int := 0x401008

  predicate FitsI32(width: int, height: int, mipmaps: int) {
    -TWO_31 <= width < TWO_31 && -TWO_31 <= height < TWO_31 && -TWO_31 <= mipmaps < TWO_31
  }

  /** The 124 bytes of a DDS header for a DXT1 texture: the magic, the
      header size, the flags, the height and width fields, the mip count,
      then the reserved words, the pixel format and the caps. */
  function Layout(width: int, height: int, mipmaps: int): (s: seq<Byte>)
    requires FitsI32(width, height, mipmaps)
  {
    Ascii("DDS ") + (EncodeI32(0x7c) + (EncodeI32(HEADER_FLAGS) + (EncodeI32(width) + (EncodeI32(height) +
    (EncodeI32(0) + (EncodeI32(0) + (EncodeI32(mipmaps) + LayoutTail())))))))
  }

  /** The last 92 bytes, the same in every header: 44 reserved bytes, the
      pixel format (size 32, `DDPF_FOURCC`, `DXT1`, 20 zero bytes) and the
      caps followed by 12 zero bytes. */
  function LayoutTail(): (s: seq<Byte>) {
    Zeros(44) + (EncodeI32(0x20) + (EncodeI32(PIXEL_FORMAT_FLAGS) + (EncodeI32(FOURCC_DXT1) + Zeros(20)))) +
    (EncodeI32(CAPS) + Zeros(12))
  }

  /** One `pack` call at the end of what is already written, with room for
      it, appends its bytes, leaves the rest of the buffer alone and moves
      the offset past them. */
  lemma {:induction false} PackAppends(fields: seq<Field>, prefix: seq<Byte>, tail: seq<Byte>)
    requires Encoded(fields).1.None? && FormatSize(fields) <= |tail|
    ensures PackStep(fields, prefix + tail, |prefix|) ==
            (Ok(|prefix| + FormatSize(fields)), (prefix + Encoded(fields).0) + tail[FormatSize(fields)..],
             |prefix| + FormatSize(fields))
  {
    var b := Encoded(fields).0;
    assert PadTo(b, FormatSize(fields)) == b;
    SpliceAppend(prefix, tail, b);
  }

  /** The eleven `pack` calls of `_get_default_header` (lines 32-43), made
      again by `_write_to_test` (lines 48-59), each as its list of fields. */
  function HeaderCalls(width: int, height: int, mipmaps: int): seq<seq<Field>> {
    [[StrField(Ascii("DDS"), 3), ByteField(0x20)],
     [IntField(0x7c)], [IntField(HEADER_FLAGS)], [IntField(width)], [IntField(height)],
     [IntField(0)], [IntField(0)], [IntField(mipmaps)], [PadField(11 * 4)],
     [IntField(0x20), IntField(PIXEL_FORMAT_FLAGS), IntField(FOURCC_DXT1), PadField(5 * 4)],
     [IntField(CAPS), PadField(3 * 4)]]
  }

  /** `self.pack` with the lists of fields from the `k`-th on, in turn, on
      one buffer and one offset cell, up to the first call that raises; on
      success, the offset the cell ends at. */
  function PackCalls(calls: seq<seq<Field>>, k: nat, buf: seq<Byte>, off: nat): (r: (Result<nat>, seq<Byte>))
    ensures |r.1| == |buf|
    decreases |calls| - k, 1
  {
    if k >= |calls| then (Ok(off), buf) else PackCallAt(calls, k, buf, off)
  }

  /** Call `k`, then the ones after it unless it raised. */
  function PackCallAt(calls: seq<seq<Field>>, k: nat, buf: seq<Byte>, off: nat): (r: (Result<nat>, seq<Byte>))
    requires k < |calls|
    ensures |r.1| == |buf|
    decreases |calls| - k, 0
  {
    var s := PackStep(calls[k], buf, off);
    if s.0.Err? then (s.0, s.1) else PackCalls(calls, k + 1, s.1, s.2)
  }

  /** The bytes the calls from the `k`-th on write one after the other when
      none raises. */
  function Written(calls: seq<seq<Field>>, k: nat): seq<Byte>
    decreases |calls| - k
  {
    if k >= |calls| then [] else Encoded(calls[k]).0 + Written(calls, k + 1)
  }

  /** How far the calls from the `k`-th on move the offset. */
  function CallsSize(calls: seq<seq<Field>>, k: nat): nat
    decreases |calls| - k
  {
    if k >= |calls| then 0 else FormatSize(calls[k]) + CallsSize(calls, k + 1)
  }

  /** Every value of the calls from the `k`-th on is in its field's range. */
  predicate InRange(calls: seq<seq<Field>>, k: nat)
    decreases |calls| - k
  {
    k >= |calls| || (Encoded(calls[k]).1.None? && InRange(calls, k + 1))
  }

  /** The eleven `self.pack` calls that write the header into `data` from
      a fresh offset cell at 0 (lines 31-43, and again 47-59); on success,
      the offset the cell ends at. */
  method PackHeader(data: array<Byte>, width: int, height: int, mipmaps: int) returns (r: Result<nat>)
    modifies data
    ensures (r, data[..]) == PackCalls(HeaderCalls(width, height, mipmaps), 0, old(data[..]), 0)
  {
    var calls := HeaderCalls(width, height, mipmaps);
    var offset := new nat[1];
    offset[0] := 0;
    r := PackMagicToWidth(data, offset, calls);
    if r.Err? {
      return;
    }
    r := PackHeightToMipmaps(data, offset, calls);
    if r.Err? {
      return;
    }
    r := PackReservedToCaps(data, offset, calls);
  }

  /** The magic, the header size, the flags and the width (lines 32-35). */
  method PackMagicToWidth(data: array<Byte>, offset: array<nat>, calls: seq<seq<Field>>) returns (r: Result<nat>)
    requires |calls| == 11 && offset.Length == 1 && data as object != offset as object
    modifies data, offset
    ensures PackCalls(calls, 0, old(data[..]), old(offset[0])) ==
            if r.Err? then (r, data[..]) else PackCalls(calls, 4, data[..], offset[0])
    ensures r.Ok? ==> r.value == offset[0]
  {
    r := PackNext(data, offset, calls, 0);
    if r.Err? {
      return;
    }
    r := PackNext(data, offset, calls, 1);
    if r.Err? {
      return;
    }
    r := PackNext(data, offset, calls, 2);
    if r.Err? {
      return;
    }
    r := PackNext(data, offset, calls, 3);
  }

  /** The height, the pitch, the depth and the mip count (lines 36-39). */
  method PackHeightToMipmaps(data: array<Byte>, offset: array<nat>, calls: seq<seq<Field>>) returns (r: Result<nat>)
    requires |calls| == 11 && offset.Length == 1 && data as object != offset as object
    modifies data, offset
    ensures PackCalls(calls, 4, old(data[..]), old(offset[0])) ==
            if r.Err? then (r, data[..]) else PackCalls(calls, 8, data[..], offset[0])
    ensures r.Ok? ==> r.value == offset[0]
  {
    r := PackNext(data, offset, calls, 4);
    if r.Err? {
      return;
    }
    r := PackNext(data, offset, calls, 5);
    if r.Err? {
      return;
    }
    r := PackNext(data, offset, calls, 6);
    if r.Err? {
      return;
    }
    r := PackNext(data, offset, calls, 7);
  }

  /** The reserved words, the pixel format and the caps (lines 40-43). */
  method PackReservedToCaps(data: array<Byte>, offset: array<nat>, calls: seq<seq<Field>>) returns (r: Result<nat>)
    requires |calls| == 11 && offset.Length == 1 && data as object != offset as object
    modifies data, offset
    ensures PackCalls(calls, 8, old(data[..]), old(offset[0])) ==
            if r.Err? then (r, data[..]) else PackCalls(calls, 11, data[..], offset[0])
    ensures r.Ok? ==> r.value == offset[0]
  {
    r := PackNext(data, offset, calls, 8);
    if r.Err? {
      return;
    }
    r := PackNext(data, offset, calls, 9);
    if r.Err? {
      return;
    }
    r := PackNext(data, offset, calls, 10);
  }

  /** Call `k` of a run of `self.pack` calls: it ends the run if it raises
      and otherwise hands on to call `k + 1`. */
  method PackNext(data: array<Byte>, offset: array<nat>, calls: seq<seq<Field>>, k: nat)
    returns (r: Result<nat>)
    requires k < |calls|
    requires offset.Length == 1 && data as object != offset as object
    modifies data, offset
    ensures PackCalls(calls, k, old(data[..]), old(offset[0])) ==
            if r.Err? then (r, data[..]) else PackCalls(calls, k + 1, data[..], offset[0])
    ensures r.Ok? ==> r.value == offset[0]
  {
    r := Pack(calls[k], data, offset);
  }

  /** Calls with room for all of them and every value in range write
      `Written` from the offset, leave the rest of the buffer alone and move
      the offset by `CallsSize`. */
  lemma {:induction false} PackCallsRun(calls: seq<seq<Field>>, k: nat, prefix: seq<Byte>, tail: seq<Byte>)
    requires CallsSize(calls, k) <= |tail| && InRange(calls, k)
    ensures PackCalls(calls, k, prefix + tail, |prefix|) ==
            (Ok(|prefix| + CallsSize(calls, k)), (prefix + Written(calls, k)) + tail[CallsSize(calls, k)..])
    decreases |calls| - k
  {
    if k < |calls| {
      var b := Encoded(calls[k]).0;
      var size := FormatSize(calls[k]);
      var w, n := Written(calls, k + 1), CallsSize(calls, k + 1);
      assert Written(calls, k) == b + w && CallsSize(calls, k) == size + n;
      assert Encoded(calls[k]).1.None? && InRange(calls, k + 1);
      PackCallsStep(calls, k, prefix, tail);
      PackCallsRun(calls, k + 1, prefix + b, tail[size..]);
      Regroup(prefix, b, w, tail, size, n);
      assert |prefix + b| == |prefix| + size;
    } else {
      assert (prefix + []) + tail[0..] == prefix + tail;
    }
  }

  /** Calls with room for all of them and a value out of range raise
      `struct.error`. */
  lemma {:induction false} PackCallsRaise(calls: seq<seq<Field>>, k: nat, buf: seq<Byte>, off: nat)
    requires off + CallsSize(calls, k) <= |buf| && !InRange(calls, k)
    ensures PackCalls(calls, k, buf, off).0 == Err(BadFormat)
    decreases |calls| - k
  {
    var prefix, tail := buf[..off], buf[off..];
    assert buf == prefix + tail;
    PackCallsStep(calls, k, prefix, tail);
    if Encoded(calls[k]).1.None? {
      var size := FormatSize(calls[k]);
      PackCallsRaise(calls, k + 1, (prefix + Encoded(calls[k]).0) + tail[size..], off + size);
    }
  }

  /** One call: in range, it appends its bytes and hands on to the next;
      out of range, it ends the run with `struct.error`. */
  lemma {:induction false} PackCallsStep(calls: seq<seq<Field>>, k: nat, prefix: seq<Byte>, tail: seq<Byte>)
    requires k < |calls| && FormatSize(calls[k]) <= |tail|
    ensures Encoded(calls[k]).1.None? ==>
      PackCalls(calls, k, prefix + tail, |prefix|) ==
      PackCalls(calls, k + 1, (prefix + Encoded(calls[k]).0) + tail[FormatSize(calls[k])..], |prefix| + FormatSize(calls[k]))
    ensures Encoded(calls[k]).1.Some? ==> PackCalls(calls, k, prefix + tail, |prefix|).0 == Err(BadFormat)
  {
    if Encoded(calls[k]).1.None? {
      PackAppends(calls[k], prefix, tail);
    } else {
      EncodedError(calls[k]);
    }
  }

  lemma {:induction false} Regroup(prefix: seq<Byte>, b: seq<Byte>, w: seq<Byte>, tail: seq<Byte>, size: nat, n: nat)
    requires size + n <= |tail|
    ensures ((prefix + b) + w) + tail[size..][n..] == (prefix + (b + w)) + tail[size + n..]
  {
    assert tail[size..][n..] == tail[size + n..];
    assert (prefix + b) + w == prefix + (b + w);
  }

  lemma {:induction false} EncodedCons(f: Field, rest: seq<Field>)
    requires FieldBytes(f).Ok?
    ensures Encoded([f] + rest) == (FieldBytes(f).value + Encoded(rest).0, Encoded(rest).1)
    ensures FormatSize([f] + rest) == FieldSize(f) + FormatSize(rest)
  {
    assert ([f] + rest)[1..] == rest;
  }

  /** A call of one field. */
  lemma {:induction false} SingleCall(f: Field)
    ensures FormatSize([f]) == FieldSize(f)
    ensures FieldBytes(f).Ok? ==> Encoded([f]) == (FieldBytes(f).value, None)
    ensures FieldBytes(f).Err? ==> Encoded([f]).1.Some?
  {
    assert [f][1..] == [];
    if FieldBytes(f).Ok? {
      assert FieldBytes(f).value + [] == FieldBytes(f).value;
    }
  }

  /** The pixel-format call: three integers and 20 pad bytes. */
  lemma {:induction false} PixelFormatCall()
    ensures var c := [IntField(0x20), IntField(PIXEL_FORMAT_FLAGS), IntField(FOURCC_DXT1), PadField(5 * 4)];
      FormatSize(c) == 32 &&
      Encoded(c) == (EncodeI32(0x20) + (EncodeI32(PIXEL_FORMAT_FLAGS) + (EncodeI32(FOURCC_DXT1) + Zeros(20))), None)
  {
    var d := [PadField(5 * 4)];
    SingleCall(PadField(5 * 4));
    EncodedCons(IntField(FOURCC_DXT1), d);
    assert [IntField(FOURCC_DXT1)] + d == [IntField(FOURCC_DXT1), PadField(5 * 4)];
    var cd := [IntField(FOURCC_DXT1), PadField(5 * 4)];
    EncodedCons(IntField(PIXEL_FORMAT_FLAGS), cd);
    assert [IntField(PIXEL_FORMAT_FLAGS)] + cd == [IntField(PIXEL_FORMAT_FLAGS), IntField(FOURCC_DXT1), PadField(5 * 4)];
    var bcd := [IntField(PIXEL_FORMAT_FLAGS), IntField(FOURCC_DXT1), PadField(5 * 4)];
    EncodedCons(IntField(0x20), bcd);
    assert [IntField(0x20)] + bcd == [IntField(0x20), IntField(PIXEL_FORMAT_FLAGS), IntField(FOURCC_DXT1), PadField(5 * 4)];
  }

  /** The caps call: one integer and 12 pad bytes. */
  lemma {:induction false} CapsCall()
    ensures var c := [IntField(CAPS), PadField(3 * 4)];
      FormatSize(c) == 16 && Encoded(c) == (EncodeI32(CAPS) + Zeros(12), None)
  {
    SingleCall(PadField(3 * 4));
    EncodedCons(IntField(CAPS), [PadField(3 * 4)]);
    assert [IntField(CAPS)] + [PadField(3 * 4)] == [IntField(CAPS), PadField(3 * 4)];
  }

  /** The magic call: three characters and a byte. */
  lemma {:induction false} MagicCall()
    ensures var c := [StrField(Ascii("DDS"), 3), ByteField(0x20)];
      FormatSize(c) == 4 && Encoded(c) == (Ascii("DDS "), None)
  {
    SingleCall(ByteField(0x20));
    EncodedCons(StrField(Ascii("DDS"), 3), [ByteField(0x20)]);
    assert [StrField(Ascii("DDS"), 3)] + [ByteField(0x20)] == [StrField(Ascii("DDS"), 3), ByteField(0x20)];
    assert PadTo(Ascii("DDS"), 3) == Ascii("DDS");
    assert Ascii("DDS") + [0x20] == Ascii("DDS ");
  }

  /** The header calls move the offset 124 bytes, raise exactly when the
      width, the height or the mip count is outside the `<i` range, and
      otherwise write the layout. */
  lemma {:induction false} HeaderCallsWrite(width: int, height: int, mipmaps: int)
    ensures var calls := HeaderCalls(width, height, mipmaps);
      CallsSize(calls, 0) == 124 &&
      (InRange(calls, 0) <==> FitsI32(width, height, mipmaps)) &&
      (FitsI32(width, height, mipmaps) ==> Written(calls, 0) == Layout(width, height, mipmaps))
  {
    HeaderSize(width, height, mipmaps);
    HeaderInRange(width, height, mipmaps);
    if FitsI32(width, height, mipmaps) {
      HeaderBytes(width, height, mipmaps);
    }
  }

  /** `_get_default_header` (lines 29-44): the calls on a fresh zeroed
      128-byte buffer raise `struct.error` exactly when a field is outside
      the `<i` range, and otherwise stop at offset 124 with the layout
      followed by four zero bytes. */
  lemma {:induction false} DefaultHeaderBytes(width: int, height: int, mipmaps: int)
    ensures var r := PackCalls(HeaderCalls(width, height, mipmaps), 0, Zeros(HEADER_SIZE), 0);
      (r.0.Ok? <==> FitsI32(width, height, mipmaps)) &&
      (r.0.Err? ==> r.0.error == BadFormat) &&
      (r.0.Ok? ==> r.0.value == 124 && r.1 == Layout(width, height, mipmaps) + Zeros(4))
  {
    var calls := HeaderCalls(width, height, mipmaps);
    var buf: seq<Byte> := Zeros(HEADER_SIZE);
    HeaderCallsWrite(width, height, mipmaps);
    if FitsI32(width, height, mipmaps) {
      assert buf == [] + buf;
      PackCallsRun(calls, 0, [], buf);
      assert ([] + Layout(width, height, mipmaps)) + buf[124..] == Layout(width, height, mipmaps) + Zeros(4);
    } else {
      PackCallsRaise(calls, 0, buf, 0);
    }
  }

  lemma {:induction false} HeaderSize(width: int, height: int, mipmaps: int)
    ensures CallsSize(HeaderCalls(width, height, mipmaps), 0) == 124
  {
    var calls := HeaderCalls(width, height, mipmaps);
    MagicCall();
    PixelFormatCall();
    CapsCall();
    SingleCall(IntField(0x7c));
    SingleCall(IntField(HEADER_FLAGS));
    SingleCall(IntField(width));
    SingleCall(IntField(height));
    SingleCall(IntField(0));
    SingleCall(IntField(mipmaps));
    SingleCall(PadField(11 * 4));
    assert CallsSize(calls, 11) == 0;
    assert CallsSize(calls, 10) == 16;
    assert CallsSize(calls, 9) == 48;
    assert CallsSize(calls, 8) == 92;
    assert CallsSize(calls, 7) == 96;
    assert CallsSize(calls, 6) == 100;
    assert CallsSize(calls, 5) == 104;
    assert CallsSize(calls, 4) == 108;
    assert CallsSize(calls, 3) == 112;
    assert CallsSize(calls, 2) == 116;
    assert CallsSize(calls, 1) == 120;
  }

  lemma {:induction false} HeaderInRange(width: int, height: int, mipmaps: int)
    ensures InRange(HeaderCalls(width, height, mipmaps), 0) <==> FitsI32(width, height, mipmaps)
  {
    var calls := HeaderCalls(width, height, mipmaps);
    MagicCall();
    PixelFormatCall();
    CapsCall();
    SingleCall(IntField(0x7c));
    SingleCall(IntField(HEADER_FLAGS));
    SingleCall(IntField(width));
    SingleCall(IntField(height));
    SingleCall(IntField(0));
    SingleCall(IntField(mipmaps));
    SingleCall(PadField(11 * 4));
    assert InRange(calls, 11);
    assert InRange(calls, 10);
    assert InRange(calls, 9);
    assert InRange(calls, 8);
    assert InRange(calls, 7) <==> -TWO_31 <= mipmaps < TWO_31;
    assert InRange(calls, 6) <==> InRange(calls, 7);
    assert InRange(calls, 5) <==> InRange(calls, 7);
    assert InRange(calls, 4) <==> -TWO_31 <= height < TWO_31 && InRange(calls, 5);
    assert InRange(calls, 3) <==> -TWO_31 <= width < TWO_31 && InRange(calls, 4);
    assert InRange(calls, 2) <==> InRange(calls, 3);
    assert InRange(calls, 1) <==> InRange(calls, 3);
  }

  lemma {:induction false} HeaderBytes(width: int, height: int, mipmaps: int)
    requires FitsI32(width, height, mipmaps)
    ensures Written(HeaderCalls(width, height, mipmaps), 0) == Layout(width, height, mipmaps)
  {
    HeaderHead(width, height, mipmaps);
    HeaderMiddle(width, height, mipmaps);
    HeaderTail(width, height, mipmaps);
  }

  /** The magic and the first four integers. */
  lemma {:induction false} HeaderHead(width: int, height: int, mipmaps: int)
    requires FitsI32(width, height, mipmaps)
    ensures var calls := HeaderCalls(width, height, mipmaps);
      Written(calls, 0) == Ascii("DDS ") + (EncodeI32(0x7c) + (EncodeI32(HEADER_FLAGS) + (EncodeI32(width) +
        (EncodeI32(height) + Written(calls, 5)))))
  {
    var calls := HeaderCalls(width, height, mipmaps);
    SingleCall(IntField(height));
    assert Written(calls, 4) == EncodeI32(height) + Written(calls, 5);
    SingleCall(IntField(width));
    assert Written(calls, 3) == EncodeI32(width) + Written(calls, 4);
    SingleCall(IntField(HEADER_FLAGS));
    assert Written(calls, 2) == EncodeI32(HEADER_FLAGS) + Written(calls, 3);
    SingleCall(IntField(0x7c));
    assert Written(calls, 1) == EncodeI32(0x7c) + Written(calls, 2);
    MagicCall();
  }

  /** The two zero integers and the mip count. */
  lemma {:induction false} HeaderMiddle(width: int, height: int, mipmaps: int)
    requires FitsI32(width, height, mipmaps)
    ensures var calls := HeaderCalls(width, height, mipmaps);
      Written(calls, 5) == EncodeI32(0) + (EncodeI32(0) + (EncodeI32(mipmaps) + Written(calls, 8)))
  {
    var calls := HeaderCalls(width, height, mipmaps);
    SingleCall(IntField(mipmaps));
    assert Written(calls, 7) == EncodeI32(mipmaps) + Written(calls, 8);
    SingleCall(IntField(0));
  }

  /** The reserved words, the pixel format and the caps. */
  lemma {:induction false} HeaderTail(width: int, height: int, mipmaps: int)
    ensures Written(HeaderCalls(width, height, mipmaps), 8) == LayoutTail()
  {
    var calls := HeaderCalls(width, height, mipmaps);
    PixelFormatCall();
    CapsCall();
    SingleCall(PadField(11 * 4));
    assert Written(calls, 11) == [];
    assert Written(calls, 10) == EncodeI32(CAPS) + Zeros(12) + [];
  }

  /** The offsets of the eight leading words of a header laid out as
      `Layout` lays it out, whatever the words hold. */
  lemma {:induction false} WordPositions(m: seq<Byte>, w1: seq<Byte>, w2: seq<Byte>, w3: seq<Byte>, w4: seq<Byte>,
                                         w5: seq<Byte>, w6: seq<Byte>, w7: seq<Byte>, t: seq<Byte>)
    requires |m| == |w1| == |w2| == |w3| == |w4| == |w5| == |w6| == |w7| == 4 && |t| >= 56
    ensures var s := m + (w1 + (w2 + (w3 + (w4 + (w5 + (w6 + (w7 + t)))))));
      s[..4] == m && s[4..8] == w1 && s[12..16] == w3 && s[16..20] == w4 && s[28..32] == w7 && s[84..88] == t[52..56]
  {
    var s := m + (w1 + (w2 + (w3 + (w4 + (w5 + (w6 + (w7 + t)))))));
    assert forall k :: 0 <= k < 4 ==> s[k] == m[k] && s[4 + k] == w1[k] && s[12 + k] == w3[k] && s[16 + k] == w4[k];
    assert forall k :: 0 <= k < 4 ==> s[28 + k] == w7[k] && s[84 + k] == t[52 + k];
  }

  /** Where a DDS reader looks: the magic, the header size 124, the width,
      the height, the mip count and the `DXT1` FourCC. */
  lemma {:induction false} LayoutFields(width: int, height: int, mipmaps: int)
    requires FitsI32(width, height, mipmaps)
    ensures var s := Layout(width, height, mipmaps);
      |s| == 124 && s[..4] == Ascii("DDS ") && I32(s[4..8]) == 124 && I32(s[12..16]) == width &&
      I32(s[16..20]) == height && I32(s[28..32]) == mipmaps && s[84..88] == Ascii("DXT1")
  {
    I32RoundTrip(0x7c);
    I32RoundTrip(width);
    I32RoundTrip(height);
    I32RoundTrip(mipmaps);
    WordPositions(Ascii("DDS "), EncodeI32(0x7c), EncodeI32(HEADER_FLAGS), EncodeI32(width), EncodeI32(height),
                  EncodeI32(0), EncodeI32(0), EncodeI32(mipmaps), LayoutTail());
    assert LayoutTail()[52..56] == EncodeI32(FOURCC_DXT1);
  }
}
