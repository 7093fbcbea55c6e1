/** `struct.pack_into` / `struct.unpack_from` on a writable buffer, and the
    `pack` / `unpack` helpers of the cover converter that keep their offset
    in a one-element list and move it past what they wrote or read. */
module Packing {
  import opened Bytes
  import opened Outcome
  import opened Reader

  /** One field of a format string. */
  datatype Field =
    | StrField(text: seq<Byte>, width: nat)   // `<Ns`
    | ByteField(value: int)                   // `B`
    | IntField(value: int)                    // `i`
    | PadField(width: nat)                    // `Nx`

  function Zeros(n: nat): (z: seq<Byte>)
    ensures |z| == n && forall k :: 0 <= k < n ==> z[k] == 0
  {
    seq(n, _ => 0)
  }

  /** `s` cut to `n` bytes, or filled up to `n` with zero bytes: what `<ns`
      stores. */
  function PadTo(s: seq<Byte>, n: nat): (r: seq<Byte>)
    ensures |r| == n
  {
    if |s| >= n then s[..n] else s + Zeros(n - |s|)
  }

  /** `struct.calcsize` of one field. */
  function FieldSize(f: Field): nat {
    match f
    case StrField(_, width) => width
    case ByteField(_) => 1
    case IntField(_) => 4
    case PadField(width) => width
  }

  function FormatSize(fields: seq<Field>): nat
    decreases |fields|
  {
    if fields == [] then 0 else FieldSize(fields[0]) + FormatSize(fields[1..])
  }

  /** The bytes of one field, or `struct.error` for a value out of range. */
  function FieldBytes(f: Field): (r: Result<seq<Byte>>)
    ensures r.Ok? ==> |r.value| == FieldSize(f)
    ensures r.Err? <==> (f.ByteField? && !(0 <= f.value < 0x100)) || (f.IntField? && !(-TWO_31 <= f.value < TWO_31))
    ensures r.Err? ==> r.error == BadFormat
  {
    match f
    case StrField(text, width) => Ok(PadTo(text, width))
    case ByteField(v) => if 0 <= v < 0x100 then Ok([v]) else Err(BadFormat)
    case IntField(v) => if -TWO_31 <= v < TWO_31 then Ok(EncodeI32(v)) else Err(BadFormat)
    case PadField(width) => Ok(Zeros(width))
  }

  /** The fields encoded one after the other up to the first that is out of
      range, and the error that one raised. */
  function Encoded(fields: seq<Field>): (e: (seq<Byte>, Option<Error>))
    ensures |e.0| <= FormatSize(fields)
    ensures e.1.None? ==> |e.0| == FormatSize(fields)
    decreases |fields|
  {
    if fields == [] then ([], None)
    else
      match FieldBytes(fields[0])
      case Err(err) => ([], Some(err))
      case Ok(b) =>
        var rest := Encoded(fields[1..]);
        (b + rest.0, rest.1)
  }

  /** `buf` with `bytes` written over it from `off` on. */
  function Splice(buf: seq<Byte>, off: nat, bytes: seq<Byte>): (r: seq<Byte>)
    requires off + |bytes| <= |buf|
    ensures |r| == |buf|
  {
    seq(|buf|, k requires 0 <= k < |buf| => if off <= k < off + |bytes| then bytes[k - off] else buf[k])
  }

  /** `bytes` lands at `off` and every other byte is left alone. */
  lemma {:induction false} SpliceBytes(buf: seq<Byte>, off: nat, bytes: seq<Byte>)
    requires off + |bytes| <= |buf|
    ensures Splice(buf, off, bytes)[off..off + |bytes|] == bytes
    ensures forall k :: 0 <= k < |buf| && !(off <= k < off + |bytes|) ==> Splice(buf, off, bytes)[k] == buf[k]
  {
  }

  /** `struct.pack_into(fmt, buf, off, *values)`: a region past the end of the
      buffer fails before anything is written; otherwise the region is
      cleared and the fields are written in order, so a value out of range
      leaves the fields before it in place. */
  function PackSpec(fields: seq<Field>, buf: seq<Byte>, off: nat): (r: (Result<nat>, seq<Byte>))
    ensures |r.1| == |buf|
    ensures r.0.Ok? ==> off + FormatSize(fields) <= |buf| && r.0.value == off + FormatSize(fields)
    ensures r.0.Err? && off + FormatSize(fields) > |buf| ==> r.0.error == OutOfBuffer && r.1 == buf
  {
    var size := FormatSize(fields);
    if off + size > |buf| then (Err(OutOfBuffer), buf)
    else
      var e := Encoded(fields);
      (if e.1.None? then Ok(off + size) else Err(e.1.value), Splice(buf, off, PadTo(e.0, size)))
  }

  /** `pack_into` fails exactly when the region does not fit or a value is
      out of its field's range, and it never touches bytes outside the
      region. */
  lemma {:induction false} PackSpecOutcome(fields: seq<Field>, buf: seq<Byte>, off: nat)
    ensures var r := PackSpec(fields, buf, off);
      (r.0.Ok? <==> off + FormatSize(fields) <= |buf| && Encoded(fields).1.None?) &&
      (r.0.Ok? ==> r.1[off..off + FormatSize(fields)] == Encoded(fields).0) &&
      (forall k :: 0 <= k < |buf| && !(off <= k < off + FormatSize(fields)) ==> r.1[k] == buf[k])
  {
    var size := FormatSize(fields);
    if off + size <= |buf| {
      SpliceBytes(buf, off, PadTo(Encoded(fields).0, size));
    }
  }

  /** Every field is in range exactly when `Encoded` reports no error. */
  lemma {:induction false} EncodedOk(fields: seq<Field>)
    ensures Encoded(fields).1.None? <==> forall k :: 0 <= k < |fields| ==> FieldBytes(fields[k]).Ok?
    decreases |fields|
  {
    if fields != [] {
      EncodedOk(fields[1..]);
      assert forall k :: 1 <= k < |fields| ==> fields[k] == fields[1..][k - 1];
    }
  }

  /** The only error a list of fields raises is `struct.error` for a value
      out of range. */
  lemma {:induction false} EncodedError(fields: seq<Field>)
    ensures Encoded(fields).1.Some? ==> Encoded(fields).1.value == BadFormat
    decreases |fields|
  {
    if fields != [] && FieldBytes(fields[0]).Ok? {
      EncodedError(fields[1..]);
    }
  }

  /** The state after `self.pack(fmt, data, offset, *values)`: the
      offset advances by `calcsize(fmt)` only when `pack_into` returned. */
  function PackStep(fields: seq<Field>, buf: seq<Byte>, off: nat): (Result<nat>, seq<Byte>, nat) {
    var r := PackSpec(fields, buf, off);
    (r.0, r.1, if r.0.Ok? then off + FormatSize(fields) else off)
  }

  /** `struct.pack_into(fmt, data, off, *values)` on a bytearray; on success
      the result is the offset just past the region. */
  method PackInto(fields: seq<Field>, data: array<Byte>, off: nat) returns (r: Result<nat>)
    modifies data
    ensures (r, data[..]) == PackSpec(fields, old(data[..]), off)
  {
    var size := FormatSize(fields);
    if off + size > data.Length {
      return Err(OutOfBuffer);
    }
    var e := Encoded(fields);
    var region := PadTo(e.0, size);
    ghost var before := data[..];
    forall k | 0 <= k < size {
      data[off + k] := region[k];
    }
    assert data[..] == Splice(before, off, region) by {
      forall k | 0 <= k < data.Length
        ensures data[k] == Splice(before, off, region)[k]
      {
        if off <= k < off + size {
          assert Splice(before, off, region)[off..off + size][k - off] == region[k - off];
        }
      }
    }
    r := if e.1.None? then Ok(off + size) else Err(e.1.value);
  }

  /** `CoverCTC.pack` (lines 157-160). */
  method Pack(fields: seq<Field>, data: array<Byte>, offset: array<nat>) returns (r: Result<nat>)
    requires offset.Length == 1
    requires data as object != offset as object
    modifies data, offset
    ensures (r, data[..], offset[0]) == PackStep(fields, old(data[..]), old(offset[0]))
  {
    r := PackInto(fields, data, offset[0]);
    if r.Ok? {
      offset[0] := offset[0] + FormatSize(fields);
    }
  }

  /** `CoverCTC.unpack` (lines 151-155) for a format of `size` bytes: the
      bytes it decodes, with the offset moved past them. */
  method Unpack(data: seq<Byte>, size: nat, offset: array<nat>) returns (r: Result<seq<Byte>>)
    requires offset.Length == 1
    modifies offset
    ensures r == Read(data, old(offset[0]), size)
    ensures offset[0] == if r.Ok? then old(offset[0]) + size else old(offset[0])
  {
    r := Read(data, offset[0], size);
    if r.Ok? {
      offset[0] := offset[0] + size;
    }
  }

  /** Writing at the end of what is already written extends the written
      prefix and leaves the rest of the tail alone. */
  lemma {:induction false} SpliceAppend(prefix: seq<Byte>, tail: seq<Byte>, bytes: seq<Byte>)
    requires |bytes| <= |tail|
    ensures Splice(prefix + tail, |prefix|, bytes) == (prefix + bytes) + tail[|bytes|..]
  {
    var buf := prefix + tail;
    var r := Splice(buf, |prefix|, bytes);
    var s := (prefix + bytes) + tail[|bytes|..];
    assert |r| == |s|;
    forall k | 0 <= k < |r|
      ensures r[k] == s[k]
    {
      if k < |prefix| {
        assert r[k] == buf[k] == prefix[k];
      } else if k < |prefix| + |bytes| {
        assert r[|prefix|..|prefix| + |bytes|][k - |prefix|] == bytes[k - |prefix|];
      } else {
        assert r[k] == buf[k] == tail[k - |prefix|];
      }
    }
  }
}
