# io_scene_cgf_extras: the asset decoders, in Dafny

This project models the byte-level core of the `io_scene_cgf_extras` tool
scripts. These scripts read the asset files of a legacy game engine and turn
them into files other tools can open:

- the placement map and raw terrain geometry readers (`load_geomap.py`),
  including the name resolution `parse_geoname` runs against the game
  directory;
- the tiled DXT1 cover texture container (`load_cover_ctc.py`), with its
  mip-chain size arithmetic, its 128-byte DirectDraw Surface header, its
  offset-cell `pack`/`unpack` helpers and its software S3TC decoder;
- the height-field converter (`h322r16.py`): the `(b, g, r)` sample reader,
  the splat masks derived from the `r` channel and the raw `<H` writer;
- the brush table (`load_brush.py`) and the vegetation table
  (`load_vegatation.py`), both of which append to class-level lists;
- the PC part path builder and the `Convert.convert` driver
  (`convert_pc.py`).

Bytes are integers in `0..255` (`Bytes.Byte`), and a file is a sequence of
them. `struct.unpack` of a format that needs more bytes than remain is a
`Truncated` error. Every Python exception the scripts can raise on their
inputs has its own constructor of `Outcome.Error`. The little-endian
decoders are functions over a cursor (`Reader`). The loops of the scripts
are methods whose `ensures` ties their result to those functions, and the
round trips, bounds and layout facts are lemmas about the functions.
Floating-point fields are carried as their 32-bit patterns. The one float
computation that matters, the vegetation dequantisation, is exact rational
arithmetic. The size formulas of `load_cover_ctc.py` use Python 3 true
division, so they are modelled as exact reals truncated by `int`.

Where a script keeps state across calls, the model keeps it in a class:

- the `name_resolves` cache of `load_geomap.py` is `GeoName.NameCache`;
- the class-level lists of the brush script are `Brush.BrushTables`;
- the class-level list of the vegetation script is
  `Vegetation.VegetationLines`;
- the `CoverCTC` object is `CoverCtc.CoverCtc`.

The file system is a parameter. It enters as a predicate `fileExists` (or
the set `existing`), and `fixed_basename` as a function `fixBasename`.

Some behaviours are easy to miss when reading the scripts. The model keeps
them exactly as written:

- `s3tc_decode` never resets `block_x`, so it decodes only the first block
  row.
- Operator precedence leaves only bits 8 and 9 of each green channel.
- The one-bit-alpha flag is fixed at 1.
- With `--decode`, `parse` raises on every file: the 2×2 level writes past
  the buffer it allocated.
- `read_h32` creates its detail image as `(x2, y2)` but draws at `(y, x)`,
  so a grid with both sides positive and unequal never returns: it raises
  `IndexError`, or `struct.error` when the file is short. A grid with a
  zero side draws nothing and returns.
- `resolve_valid_path` can search forever. This is the explicit `Hangs`
  outcome of `GeoName.Scan`, which `GeoName.LeadingUnderscoreHangs`
  exhibits.

## Model

| member | source | states |
|---|---|---|
| Bytes.I16RoundTrip | load_geomap.py:186 | decoding the `<h` encoding of any 16-bit signed value gives it back |
| Bytes.I32RoundTrip | load_geomap.py:146 | decoding the `<i` encoding of any 32-bit signed value gives it back |
| Bytes.U16RoundTrip | h322r16.py:182 | decoding the `<H` encoding of any 16-bit unsigned value gives it back |
| Bytes.U32RoundTrip | load_geomap.py:193 | decoding the 4-byte encoding of a 32-bit pattern (`<f` carried as bits) gives it back |
| Bytes.U16Inverse | load_geomap.py:277 | re-encoding the `<H` value read from two bytes gives those bytes back |
| Bytes.I16Inverse | load_geomap.py:186 | re-encoding the `<h` value read from two bytes gives those bytes back |
| Bytes.I32Inverse | load_geomap.py:146 | re-encoding the `<i` value read from four bytes gives those bytes back |
| Bytes.U32Inverse | load_geomap.py:193 | re-encoding the word read from four bytes gives those bytes back |
| Bytes.SignedUnsigned | load_cover_ctc.py:212 | the signed reading of a word is the `<i` value of its bytes |
| Bytes.EncodeWordsAt | load_geomap.py:190-192 | each word of `<9f` sits in its own 4-byte group of the encoding |
| Bytes.WordsRoundTrip | load_geomap.py:190-192 | decoding encoded words gives the words back |
| Bytes.WordsInverse | load_geomap.py:190-192 | re-encoding the words read from a multiple-of-4 byte string gives the string back |
| Bytes.LowerByte | load_geomap.py:36 | `bytes.lower()` changes exactly the bytes `A`-`Z`, to `a`-`z` |
| Bytes.Lower | load_geomap.py:36 | `lower()` keeps the length and lowers each byte in place |
| Bytes.AsciiIsValidUtf8 | load_brush.py:84 | pure ASCII bytes always pass `decode()` |
| Bytes.InvalidLeadByte | load_brush.py:84 | a continuation byte or an invalid lead byte where a character starts makes `decode()` fail |
| Reader.Read | load_geomap.py:28-29 | `unpack` reads exactly `calcsize(fmt)` bytes at the cursor and advances by that many, or fails with a short read when fewer remain |
| Reader.ReadI32 | load_geomap.py:146 | `<i` at the cursor succeeds iff 4 bytes remain, and the value is a signed 32-bit one |
| Reader.ReadI16 | load_geomap.py:186 | `<h` at the cursor succeeds iff 2 bytes remain, and the value is a signed 16-bit one |
| Reader.ReadWord | load_geomap.py:193 | `<f` at the cursor succeeds iff 4 bytes remain |
| Reader.ReadWords | load_geomap.py:190-192 | `<nf` at the cursor: `4n` bytes, `n` words, cursor +`4n` |
| Reader.ReadWordRoundTrip | load_geomap.py:193 | reading a word's encoding at any cursor gives the word back and moves the cursor past it |
| Reader.ReadWordSound | load_geomap.py:193 | a successful word read is the encoding of the word it returns |
| Reader.ReadWordsRoundTrip | load_geomap.py:190-192 | reading `n` words' encoding gives the words back |
| Reader.ReadWordsSound | load_geomap.py:190-192 | a successful `<nf` read is the encoding of the words it returns |
| Reader.ReadI16RoundTrip | load_geomap.py:186 | reading a `<h` encoding gives the value back |
| Reader.ReadI16Sound | load_geomap.py:186 | a successful `<h` read is the encoding of its value |
| Reader.ReadI32RoundTrip | load_geomap.py:146 | reading a `<i` encoding gives the value back |
| Reader.ReadI32Sound | load_geomap.py:146 | a successful `<i` read is the encoding of its value |
| Reader.RangeLength | load_geomap.py:185 | `range(n)` runs `n` times, and never for a negative count |
| Reader.Repeat | load_geomap.py:185-193 | a count-driven loop decodes at most `k` items, and exactly `k` when no iteration failed |
| Reader.RepeatStops | load_brush.py:80-85 | once an iteration fails, a longer loop has the same outcome as the shorter one |
| Reader.RepeatFailsAt | load_brush.py:80-85 | the failing iteration ends the loop with its own error and the items read before it |
| Reader.RepeatPrefix | load_brush.py:80-85 | a shorter loop's items are a prefix of a longer loop's |
| Reader.RepeatFixedWidth | load_brush.py:105-106 | with every item `width` bytes wide, `k` successful iterations consume exactly `k * width` bytes |
| Reader.RepeatFits | load_brush.py:105-106 | fixed-width items that fail only for want of bytes: `k` iterations succeed iff `k * width` bytes remain |
| Reader.RepeatFixedItems | load_brush.py:105-107 | with a fixed width, item `j` is what the entry decodes at `pos + j * width` |
| Reader.RepeatStep | load_geomap.py:185-212 | one more successful iteration appends exactly the new item |
| Reader.RepeatRoundTrip | load_geomap.py:185-193 | decoding the concatenated encodings of a list gives the list back and stops right after it |
| Reader.RepeatReadsAll | load_geomap.py:185-193 | the same, with the end written as the length of the encoding |
| Reader.RepeatSound | load_geomap.py:185-193 | a successful loop read exactly the concatenated encodings of its items |
| Reader.CountedRead | load_brush.py:87-89 | an `<i` count at `pos` reads back, with the item encodings right after it |
| Reader.CountedReadsBack | load_brush.py:87-101 | a counted list whose items read back: the count is recovered and the loop it drives reads all items and stops after them |
| Reader.ThreeCountedReadBack | load_brush.py:78-112 | three counted segments in a row: each count comes back and each loop stops where the next count starts |
| Reader.RepeatItems | load_geomap.py:185-212 | every item a loop appends is one the entry can return |
| Text.DigitValue | load_vegatation.py:91 | the value is -1 or a digit `0..15` whose character is `c` |
| Text.Numeral | load_vegatation.py:90-91 | `%d`/`%x` output is never empty |
| Text.NumeralRoundTrip | load_vegatation.py:90-91 | reading the numeral back gives the number |
| Text.NumeralDigits | load_vegatation.py:91 | every character of a numeral is a digit of its base, so none is a comma |
| Text.NumeralNoLeadingZero | load_vegatation.py:90-91 | the first digit is `0` only for zero |
| Text.NumeralTwoDigits | load_vegatation.py:91 | a byte is one or two hex digits |
| Text.SplitFields | load_vegatation.py:91 | `split(',')` gives at least one piece |
| Text.SplitJoin | load_vegatation.py:91 | splitting comma-joined fields without commas gives the fields back |
| Packing.Zeros | load_cover_ctc.py:40 | `<nx` pad bytes are `n` zeros |
| Packing.PadTo | load_cover_ctc.py:313 | `<ns` stores exactly `n` bytes: the value cut to `n`, or zero-filled |
| Packing.FieldBytes | load_cover_ctc.py:157-160 | one field's bytes have its format's size, or the field raises `struct.error` when its value is out of range |
| Packing.Encoded | load_cover_ctc.py:157-160 | the encoding is at most the format's size, and exactly that size when no value raised |
| Packing.Splice | load_cover_ctc.py:159 | writing over a buffer keeps its length |
| Packing.SpliceBytes | load_cover_ctc.py:159 | the written bytes land at the offset and every other byte is left alone |
| Packing.PackSpec | load_cover_ctc.py:159 | `pack_into` keeps the buffer length and returns `off + calcsize(fmt)`; a region past the end raises `struct.error` and leaves the buffer as it was |
| Packing.PackSpecOutcome | load_cover_ctc.py:157-160 | `pack_into` fails iff the region runs past the buffer or a value is out of range, and never touches bytes outside the region |
| Packing.EncodedOk | load_cover_ctc.py:157-160 | the encoding reports no error iff every value is in its field's range |
| Packing.EncodedError | load_cover_ctc.py:157-160 | the only error a field list raises is `struct.error` |
| Packing.PackInto | load_cover_ctc.py:159 | the method writes what `pack_into` writes, and returns the offset just past the region |
| Packing.Pack | load_cover_ctc.py:157-160 | `pack` writes the fields at the cell's offset and moves the cell by exactly `calcsize(fmt)`, only when the write returned |
| Packing.Unpack | load_cover_ctc.py:151-155 | `unpack` decodes the `size` bytes at the cell's offset and moves the cell by exactly `size` |
| Packing.SpliceAppend | load_cover_ctc.py:157-160 | a write at the end of what is written extends the written prefix |
| Float32.Key | load_geomap.py:202-207 | the key lies strictly within `±2^31`, is zero iff the pattern is a zero of either sign, and negative iff the sign bit is set on a nonzero pattern |
| Float32.Min | load_geomap.py:202-204 | `min(a, b)` is one of its arguments and, with neither NaN, no greater than either |
| Float32.Max | load_geomap.py:205-207 | `max(a, b)` is one of its arguments and, with neither NaN, no less than either |
| Float32.LessEqTrans | load_geomap.py:202-207 | the float order is transitive on non-NaN values |
| Float32.MinWithNaN | load_geomap.py:202 | a NaN second argument leaves `min` at its first |
| IntLog.Log2FloorBounds | load_cover_ctc.py:254 | `Log2Floor(n)` is the exponent of the largest power of two not above `n` |
| IntLog.Log2CeilBounds | h322r16.py:79-82 | `Log2Ceil(n)` is the exponent of the smallest power of two not below `n` |
| IntLog.Log2CeilPow2 | h322r16.py:79-82 | a power of two is its own ceiling |
| IntLog.Pow2Monotone | h322r16.py:79-82 | powers of two are strictly increasing in the exponent |
| Paths.CharWidth | convert_pc.py:21 | the width of a UTF-8 character from its lead byte is 1 to 4 |
| Paths.Find | load_brush.py:83 | `find` returns the first index holding the byte, at or after the start, or -1 when there is none |
| Paths.Replace | load_brush.py:121-122 | `replace` of one byte by another changes exactly the bytes equal to it |
| Paths.SplitDrive | load_brush.py:120 | `ntpath.splitdrive` splits the path into a drive and the rest, which concatenate back to it |
| Paths.JoinTail | convert_pc.py:19 | the last step of `join` is the drive followed by the path, with or without one `\` between |
| Paths.JoinKeepsTail | convert_pc.py:19 | `join` never alters a second component that has no drive: it is always the tail of the result |
| Paths.JoinRelative | convert_pc.py:19 | a relative component goes after the first with exactly one separator between them |
| Paths.JoinAbsolute | convert_pc.py:156-157 | an absolute component keeps only the drive of the first |
| Paths.OutputBaseName | load_brush.py:119-125 | the output base name holds no `\` or `/` |
| Paths.OutputBaseNameBytes | load_brush.py:119-125 | each byte of the base name is the flattened byte of the drive-less path at the same place, shifted by one when a leading `_` was dropped |
| Paths.LastSep | convert_pc.py:48 | the index of the last separator before the end, or -1 |
| Paths.LastIndex | convert_pc.py:46 | `rfind`: the last index of the byte before the end, or -1 |
| Paths.SplitExt | convert_pc.py:46 | `ntpath.splitext`: root and extension concatenate back to the path; the extension is empty or starts with a dot |
| Paths.SplitExtAt | convert_pc.py:46 | a name ending in a dot-free, separator-free extension after a non-dot file name splits at that extension |
| Paths.StripSeps | convert_pc.py:166 | trailing separators are stripped and what is left is a prefix |
| Paths.Split | convert_pc.py:166 | `ntpath.split` gives a head and a tail whose tail holds no separator |
| Paths.BaseName | convert_pc.py:48 | `basename` holds no separator |
| Paths.SplitAt | convert_pc.py:166 | a path with no drive is its directory, a separator and its file name |
| Paths.NoDrive | convert_pc.py:19 | a path starting with an ASCII byte other than a separator, not followed by a colon, has no drive |
| GeoMap.RecordAt | load_geomap.py:186-193 | a record that reads consumes `len(name) + 54` bytes, all within the data |
| GeoMap.EncodeRecord | load_geomap.py:186-193 | a record's encoding is `len(name) + 54` bytes long |
| GeoMap.RecordRoundTrip | load_geomap.py:186-193 | reading a record's encoding gives the record back, whatever follows |
| GeoMap.RecordFields | load_geomap.py:186-193 | the fields of a record that reads successfully, each from its offset |
| GeoMap.RecordSound | load_geomap.py:186-193 | a record that reads successfully is the encoding of what it returns |
| GeoMap.ReadRecord | load_geomap.py:186-193 | the four unpack calls of one iteration compute `RecordAt` |
| GeoMap.BoxOfSnoc | load_geomap.py:195-207 | one more record moves each bound by one `min`/`max` step |
| GeoMap.MapStopsAt | load_geomap.py:185-193 | a failing record makes the call fail with that record's error |
| GeoMap.MapLoopDone | load_geomap.py:185-253 | after the loop the outcome depends only on the records read |
| GeoMap.ReadMap | load_geomap.py:134-253 | the record loop computes the whole call: the returned tuples and the bounds, or the first error |
| GeoMap.MapRoundTrip | load_geomap.py:134-253 | reading an encoded map gives back each record's 13-field tuple (or the terrain ones) and the bounds of all positions; trailing bytes are never read |
| GeoMap.MapSound | load_geomap.py:134-253 | a successful read came from data that starts with the count and the encodings of the records read |
| GeoMap.KeptAll | load_geomap.py:209-212 | without `terrain_only` the list has one tuple per record, in file order |
| GeoMap.MapCount | load_geomap.py:146-185 | a successful unfiltered read returns one tuple per record of the header count, in file order |
| GeoMap.KeptTerrain | load_geomap.py:209-212 | with `terrain_only` every tuple kept is a terrain record, and every terrain record (raw name starting with `terrain_models\`) is kept |
| GeoMap.RunMinBound | load_geomap.py:202-204 | a running `min` over non-NaN values is below each of them and equal to one of them |
| GeoMap.RunMaxBound | load_geomap.py:205-207 | a running `max` over non-NaN values is above each of them and equal to one of them |
| GeoMap.BoxContains | load_geomap.py:195-210 | every record read, kept or filtered out, lies inside the bounds, and each bound is some record's coordinate, as long as no coordinate is NaN |
| GeoMap.EmptyMapFails | load_geomap.py:149-251 | a map with count 0 (or negative) fails on the final `%.4f` log of `None` |
| Geometry.VertexAt | load_geomap.py:272 | `<3f` succeeds iff 12 bytes remain, and then moves 12 on |
| Geometry.TriangleAt | load_geomap.py:277 | `<3H` succeeds iff 6 bytes remain, and then moves 6 on |
| Geometry.ReadVertex | load_geomap.py:272 | the method reads one vertex as `VertexAt` does |
| Geometry.ReadTriangle | load_geomap.py:277 | the method reads one triangle as `TriangleAt` does |
| Geometry.ReadVertices | load_geomap.py:271-273 | the vertex loop computes `Repeat` of the `<3f` entry over `range(count)` |
| Geometry.ReadTriangles | load_geomap.py:276-278 | the triangle loop computes `Repeat` of the `<3H` entry over `range(count)` |
| Geometry.ReadTail | load_geomap.py:275-284 | the triangle count, the triangles and the final assertion |
| Geometry.ReadGeometry | load_geomap.py:256-285 | the method computes the whole `read_geometry` call |
| Geometry.VertexRoundTrip | load_geomap.py:272 | a vertex reads back from its encoding |
| Geometry.TriangleRoundTrip | load_geomap.py:277 | a triangle reads back from its encoding |
| Geometry.GeometryRoundTrip | load_geomap.py:256-285 | reading an encoded mesh gives the vertices and triangles back |
| Geometry.TrailingBytesFail | load_geomap.py:283 | any byte after the triangles fails the final assertion |
| Geometry.GeometrySound | load_geomap.py:256-285 | every mesh read came from exactly the header, the vertices, a count and the triangles, with each count equal to its list's length (or negative before an empty list) |
| GeoName.LastIndex | load_geomap.py:68 | `rindex('_', 0, end)` is the last index before `end` holding `_`, or none |
| GeoName.Scan | load_geomap.py:64-83 | a split found by the search is `name = p + '_' + s` with `p` a folder and `s` nonempty, not starting with a space; the search never ends only when the name starts with `_` |
| GeoName.ProbeSpec | load_geomap.py:55-83 | `resolve_valid_path` returns nothing for an empty name or one that exists whole; any split it returns rebuilds the name around an existing folder with a shorter nonempty rest not starting with a space; it never returns only for a leading `_` |
| GeoName.ResolveValidPath | load_geomap.py:55-83 | the method computes `ProbeSpec` |
| GeoName.ScanLoop | load_geomap.py:64-83 | the `while True` loop computes `Scan` |
| GeoName.Resolve | load_geomap.py:85-124 | the outer loop computes `ResolveSpec`: folders split off while probes find them, then the rest joined |
| GeoName.NameCache.constructor | load_geomap.py:31 | the cache starts empty |
| GeoName.NameCache.ParseGeoName | load_geomap.py:33-130 | the call's result and the cache afterwards are `ParseSpec` of the cache before |
| GeoName.GuardsPassThrough | load_geomap.py:34-39 | a missing game directory, a `terrain_models\` prefix, a `.bin` suffix or a missing `.cgf` suffix returns the input unchanged and leaves the cache alone |
| GeoName.CacheRecordsAnswer | load_geomap.py:52-129 | the cache changes only under the lowered key of a `.cgf` name, and only by recording the answer just returned |
| GeoName.ParseTwice | load_geomap.py:52-129 | asking twice gives the same answer and leaves the cache as the first call left it |
| GeoName.NoUnderscoreJoins | load_geomap.py:64-124 | a name with no underscore before its last byte is never split: the result is the game directory joined with the name |
| GeoName.LeadingUnderscoreHangs | load_geomap.py:68-69 | for `_a` with nothing on disk the search window reopens at `-1` and the probe never returns |
| GeoName.DoubleUnderscoreSkipped | load_geomap.py:69 | after a rejected underscore the window stops one byte short of it, so in `a__b` the split `a` + `_b` is never tried |
| DxtSize.Trunc | load_cover_ctc.py:144 | `int(x)` truncates toward zero |
| DxtSize.BlockSize | load_cover_ctc.py:128-131 | the block size is 8 for `dxtx == 1` and 16 otherwise |
| DxtSize.Dxt1SizeZero | load_cover_ctc.py:125-126 | a zero side is sized as 1 |
| DxtSize.Dxt1SizeBlocks | load_cover_ctc.py:133 | for a positive side the (untruncated) size times 16 is `(side + 3)^2 * bs`, whole blocks when `side % 4 == 1` |
| DxtSize.LevelSizeExact | load_cover_ctc.py:144 | `int(((w+3)/4)*((h+3)/4)*bs)` is `((w+3)*(h+3)*bs) div 16`, never below the DXT1 block-count size |
| DxtSize.MipLevels | load_cover_ctc.py:138-147 | the walk visits at most `n` levels |
| DxtSize.CalcTileSize | load_cover_ctc.py:136-149 | the loop returns the sum of the level sizes of the levels the walk visits |
| DxtSize.MipLevelsShape | load_cover_ctc.py:138-147 | every level is the previous one halved with `>> 1` and clamped to 1, and a walk that ends early ended after 1×1 (or began at 0×0) |
| DxtSize.Levels64 | load_cover_ctc.py:251-254 | the 64×64 chain has seven levels, 64 down to 1, and an eighth would find both sides 0 |
| DxtSize.Sizes64 | load_cover_ctc.py:270-282 | the 64×64 chain comes to 3140 bytes as written, 2744 by block count, 21844 decoded |
| CoverCtc.MipCount | load_cover_ctc.py:254 | `int(max(log2 w, log2 h)) + 1` raises a math domain error iff a side is below 1 |
| CoverCtc.MipCountIsChainLength | load_cover_ctc.py:254-282 | a walk of `n` levels visits `min(n, floor(log2 max(w, h)) + 1)` of them: the mip count is the length of the whole chain |
| CoverCtc.MipCountTile | load_cover_ctc.py:331-334 | the tile side gives seven levels |
| CoverCtc.TileLevelSizeExact | load_cover_ctc.py:279-300 | the level size is exactly what `int` makes of the float expression |
| CoverCtc.StoreStr | load_cover_ctc.py:313 | `pack_into('<%ds')` at `d` keeps the buffer length (`PackStr` says what it writes) |
| CoverCtc.PackStr | load_cover_ctc.py:313 | `StoreStr` is `pack_into` with that one field |
| CoverCtc.CopyLevelSpec | load_cover_ctc.py:311-316 | copying a level keeps the buffer length (`CopyLevelReads` says what it stores) |
| CoverCtc.DecodeLevelSpec | load_cover_ctc.py:305-309 | decoding a level into the buffer keeps its length |
| CoverCtc.ConvertSpec | load_cover_ctc.py:293-319 | the second loop of `parse` keeps the buffer length |
| CoverCtc.CopyWalk | load_cover_ctc.py:293-319 | without `--decode` the walk keeps the buffer length (`CopyWalkOutcome` and `CopyWalkBytes` say when it fails and what it stores) |
| CoverCtc.DecodeWalk | load_cover_ctc.py:293-319 | with `--decode` the walk keeps the buffer length |
| CoverCtc.DataLength | load_cover_ctc.py:270-282 | the first loop of `parse` computes the allocation length over the chain, decoded or as stored |
| CoverCtc.CopyLevel | load_cover_ctc.py:311-316 | the method computes `CopyLevelSpec` |
| CoverCtc.DecodeLevel | load_cover_ctc.py:305-309 | the method computes `DecodeLevelSpec` |
| CoverCtc.ConvertLevels | load_cover_ctc.py:290-319 | the second loop of `parse` computes `ConvertSpec` over the chain the first loop counted |
| CoverCtc.ConvertAt | load_cover_ctc.py:300-316 | one turn of the loop: one level, then the encode offset moves by the level size and the decode offset by `stride * h` or the level size |
| CoverCtc.ChainBytesIsDataLen | load_cover_ctc.py:270-354 | the allocated length is what the size loops compute for the 64×64 chain |
| CoverCtc.ReadUpTo | load_cover_ctc.py:360 | `f.read(n)` returns at most `n` bytes, fewer only at the end of the file |
| CoverCtc.ChunkStart | load_cover_ctc.py:330-360 | tile `i`'s read starts after the leading `int` and no later than the end of the file |
| CoverCtc.Tiles | load_cover_ctc.py:358-363 | `parse_tile` writes 257 files |
| CoverCtc.CoverCtc.constructor | load_cover_ctc.py:15-27 | a new object has sides and mip count 0, no data, a fresh zeroed 128-byte header buffer and the `--decode` flag given |
| CoverCtc.CoverCtc.DefaultHeader | load_cover_ctc.py:29-44 | the header succeeds iff the sides and the mip count fit `<i`, and is then the 124-byte layout followed by four zeros; otherwise `struct.error` |
| CoverCtc.CoverCtc.Parse | load_cover_ctc.py:234-319 | `parse` sets the sides to 64 and the mip count to 7, and leaves the outcome and `_datas` that `ParseSpec` gives |
| CoverCtc.CoverCtc.ParseTile | load_cover_ctc.py:321-368 | `parse_tile` fails with a short read iff the file is under 4 bytes, leaving the sides alone; otherwise it sets the sides to 64 and the mip count to 7 and writes the files `Tiles` gives |
| CoverCtc.CoverCtc.WriteTiles | load_cover_ctc.py:356-366 | each tile reads the next `data_len - 4` bytes and stores them after a fresh default header |
| CoverCtc.WriteTile | load_cover_ctc.py:359-363 | one tile is a zeroed `128 + data_len + 5` buffer with the header at 0 and the tile bytes at 128 |
| CoverCtc.TileBytes | load_cover_ctc.py:359-363 | the two stores on a zeroed buffer lay the tile out as header, bytes, zeros |
| CoverCtc.WalkLenIsDataLen | load_cover_ctc.py:270-282 | the bytes a walk reads or writes are the `data_len` the size loop computes |
| CoverCtc.CopyLevelReads | load_cover_ctc.py:311-316 | a copied level fails only when the file runs out, and otherwise stores the next `size` bytes at `d` |
| CoverCtc.CopyWalkOutcome | load_cover_ctc.py:293-319 | without `--decode` the walk fails, with a short read, iff fewer than `CopyLen` bytes follow `e` |
| CoverCtc.CopyWalkBytes | load_cover_ctc.py:293-319 | when it does not fail, it stores those bytes, in order, at `d` |
| CoverCtc.PassThroughWalk | load_cover_ctc.py:306-316 | in pass-through mode each level copies exactly `size` bytes and both offsets advance by `size`: the walk copies the file |
| CoverCtc.ParseMagic | load_cover_ctc.py:259 | a file shorter than 4 bytes raises `struct.error`, a first `int` other than 64 the assertion, and 64 allocates the chain's length |
| CoverCtc.ParsePassThrough | load_cover_ctc.py:234-319 | without `--decode`, `parse` succeeds iff the first `int` is 64 and 3140 bytes follow, and `_datas` is then those bytes |
| CoverCtc.DecodeRunsOut | load_cover_ctc.py:305-309 | a decode walk into a buffer of exactly its decoded length raises once a 2×2 level has at most 20 bytes left |
| CoverCtc.DecodeLevelShort | load_cover_ctc.py:214-222 | a 2×2 level with at most 20 bytes left raises: its first block writes 40 |
| CoverCtc.ParseDecodeFails | load_cover_ctc.py:276-316 | with `--decode`, `parse` raises on every file |
| CoverCtc.TileContents | load_cover_ctc.py:358-363 | each file is the default header, the bytes read for that tile (at most `data_len - 4`) and zeros up to 3273 bytes |
| CoverCtc.ChunksCover | load_cover_ctc.py:330-360 | the tiles read the file after its leading `int` in order, without gap or overlap, until it ends or 257 reads are done |
| DdsHeader.PackAppends | load_cover_ctc.py:157-160 | a `pack` at the end of what is written, with room, appends its bytes, leaves the rest alone and moves the offset past them |
| DdsHeader.PackCalls | load_cover_ctc.py:32-43 | a run of `pack` calls keeps the buffer length |
| DdsHeader.PackCallAt | load_cover_ctc.py:32-43 | one call, then the next ones unless it raised, keeps the buffer length |
| DdsHeader.PackHeader | load_cover_ctc.py:31-43 | the eleven `pack` calls from a fresh cell compute `PackCalls` |
| DdsHeader.PackMagicToWidth | load_cover_ctc.py:32-35 | the first four calls, as `PackCalls` |
| DdsHeader.PackHeightToMipmaps | load_cover_ctc.py:36-39 | the next four calls, as `PackCalls` |
| DdsHeader.PackReservedToCaps | load_cover_ctc.py:40-43 | the last three calls, as `PackCalls` |
| DdsHeader.PackNext | load_cover_ctc.py:32-43 | one call of a run ends it if it raises and otherwise hands on |
| DdsHeader.PackCallsRun | load_cover_ctc.py:32-43 | calls with room and values in range write their bytes in order, leave the rest alone and move the offset by their sizes |
| DdsHeader.PackCallsRaise | load_cover_ctc.py:32-43 | calls with room and some value out of range raise `struct.error` |
| DdsHeader.HeaderCallsWrite | load_cover_ctc.py:32-43 | the header calls move the offset 124 bytes, raise iff a side or the mip count is out of the `<i` range, and otherwise write the DDS layout |
| DdsHeader.DefaultHeaderBytes | load_cover_ctc.py:29-44 | `_get_default_header` yields the 124-byte layout followed by four zero bytes, or `struct.error` |
| DdsHeader.HeaderSize | load_cover_ctc.py:32-43 | the eleven calls come to 124 bytes |
| DdsHeader.HeaderInRange | load_cover_ctc.py:35-39 | every header value is in range iff the sides and the mip count fit `<i` |
| DdsHeader.LayoutFields | load_cover_ctc.py:32-43 | the layout is 124 bytes: `DDS ` at 0, 124 at 4, the width at 12 and the height at 16, the mip count at 28, `DXT1` at 84 |
| S3tc.Palette | load_cover_ctc.py:183-212 | a block has four colours |
| S3tc.ChannelBounds | load_cover_ctc.py:188-193 | red and blue stay within `0..0xf800f8`; green keeps only bits 8 and 9 |
| S3tc.PaletteOpaqueFree | load_cover_ctc.py:182-210 | with the flag set every colour is below 2^24: zero alpha byte, and `<i` never rejects a colour |
| S3tc.FlagOnlyAlpha | load_cover_ctc.py:183-210 | when the first colour is the greater, a clear flag adds `0xff000000` to each colour of the set-flag palette |
| S3tc.ThreeColourMode | load_cover_ctc.py:205-208 | with the flag clear and the first colour not greater, the fourth colour is transparent; the flag used never takes that path |
| S3tc.Selector | load_cover_ctc.py:218-220 | pixel `j`'s palette entry is in `0..3` |
| S3tc.ZeroSelectors | load_cover_ctc.py:218-220 | an all-zero selector word picks the first colour for every pixel |
| S3tc.RowStart | load_cover_ctc.py:222 | row `y` of a block starts at or after the block's start |
| S3tc.Targets | load_cover_ctc.py:214-222 | a block makes sixteen writes |
| S3tc.WriteAll | load_cover_ctc.py:219 | the writes in turn keep the buffer length |
| S3tc.PixelWrite | load_cover_ctc.py:219 | one `<i` write keeps the buffer length |
| S3tc.PixelWritePacks | load_cover_ctc.py:219 | `PixelWrite` is `pack_into` with `<i` |
| S3tc.PackPixel | load_cover_ctc.py:219 | the method computes `PixelWrite` |
| S3tc.BlockSpec | load_cover_ctc.py:175-226 | decoding a block keeps the buffer length (`BlockSpecOk` and `BlockWrites` say when it fails and what it writes) |
| S3tc.StepsProduct | load_cover_ctc.py:222-230 | moving on `k` times by `step` is moving on by `k * step` |
| S3tc.RowSpec | load_cover_ctc.py:176-226 | decoding the first `n` blocks of the row keeps the buffer length |
| S3tc.BlockCount | load_cover_ctc.py:173-177 | no blocks for a non-positive extent, otherwise `n` with `4(n-1) < extent <= 4n`: the blocks that pass `k < extent / 4` |
| S3tc.DecodeOffsets | load_cover_ctc.py:222-232 | the printed offsets: decode moves `16w + 16` per block of the first row and `12w` per block row, encode 8 per block |
| S3tc.DecodeSpec | load_cover_ctc.py:162-232 | `s3tc_decode` keeps the buffer length (`DecodeOk` and `HeightIgnored` say when it fails and what it writes) |
| S3tc.WritesStop | load_cover_ctc.py:219 | once a write raised, later writes are never made |
| S3tc.RowStops | load_cover_ctc.py:176-226 | once a block raised, later blocks are never decoded |
| S3tc.RowNext | load_cover_ctc.py:176-226 | one more block of the row |
| S3tc.RowTargets | load_cover_ctc.py:215-221 | the four writes of row `y` go to consecutive pixels from the row's start |
| S3tc.DecodePixelRow | load_cover_ctc.py:215-221 | the inner loop computes four of the block's writes |
| S3tc.DecodePixels | load_cover_ctc.py:214-222 | the pixel loops compute the block's sixteen writes |
| S3tc.DecodeBlock | load_cover_ctc.py:175-222 | the method computes `BlockSpec` and, when the block decoded, moves the encode offset 8 bytes on |
| S3tc.DecodeBlockAt | load_cover_ctc.py:179-226 | one turn decodes block `k` and moves the decode offset four rows and four pixels on |
| S3tc.DecodeRow | load_cover_ctc.py:176-226 | the loop over `block_x` computes `RowSpec` in the first row and nothing later |
| S3tc.Decode | load_cover_ctc.py:162-232 | the method computes `DecodeSpec` |
| S3tcLaws.WriteAllOk | load_cover_ctc.py:219 | the writes succeed iff each fits in the buffer and holds a value `<i` accepts |
| S3tcLaws.WriteAllPlaces | load_cover_ctc.py:219 | after disjoint successful writes each holds its value in `<i` form and every other byte is unchanged |
| S3tcLaws.TargetsDisjoint | load_cover_ctc.py:214-222 | with at least four pixels to a row, a block's sixteen pixels never overlap |
| S3tcLaws.TargetsWithin | load_cover_ctc.py:214-222 | every pixel lies between the block's start and the end of its fourth row |
| S3tcLaws.ZeroIndexUniform | load_cover_ctc.py:214-222 | a zero selector word paints the whole block in the first colour |
| S3tcLaws.BlockSpecOk | load_cover_ctc.py:186-222 | a block decodes iff its 8 bytes are there and its last pixel fits |
| S3tcLaws.TargetsPlaces | load_cover_ctc.py:214-222 | after the block, pixel `j` holds `Selector(idx, j)`'s colour in `<i` form with a zero alpha byte, nothing outside the block changed |
| S3tcLaws.BlockWrites | load_cover_ctc.py:186-222 | a block whose 8 bytes are there writes its palette through its selector word |
| S3tcLaws.RowSpecOk | load_cover_ctc.py:176-226 | the first `n` blocks decode iff their `8n` bytes are there and the last pixel of the last block fits |
| S3tcLaws.DecodeOk | load_cover_ctc.py:162-232 | `s3tc_decode` fails iff there is a block row and its first row does not decode |
| S3tcLaws.HeightIgnored | load_cover_ctc.py:163-230 | as long as there is a block row, the height changes neither the outcome nor the buffer |
| S3tcLaws.BlockOnDiagonal | load_cover_ctc.py:222-226 | block `k` lands `4k` rows down and `4k` pixels in: on the image diagonal |
| HeightField.PaddedSide | h322r16.py:78-85 | in unity mode the padded side is above `d` and at most `2d`, and a side below 1 raises a math domain error; otherwise the side is `d` |
| HeightField.PaddedSidePow2 | h322r16.py:78-85 | a power-of-two side pads to one more than itself |
| HeightField.PaddedSide1536 | h322r16.py:78-85 | 1536 pads to 2049 |
| HeightField.Setup | h322r16.py:78-91 | the grid succeeds iff both sides are at least 1 (unity mode, else a math domain error) or at least 0 (otherwise, else `Image.new` refuses the size), keeping the sides |
| HeightField.HeightBytes | h322r16.py:115 | `h = b + (g << 8)` is `b + 256 g`, and its `<H` bytes are `b, g` |
| HeightField.CellFails | h322r16.py:96-117 | a short read happens only at an in-data cell, and a passing in-data cell's triple lies within the file |
| HeightField.FirstFailNone | h322r16.py:95-121 | no failure from a cell on iff no visit from there fails |
| HeightField.FirstFailSome | h322r16.py:95-121 | a failure is some visit's error, with every visit before it passing |
| HeightField.Row | h322r16.py:96-121 | one row appends `y2` heights |
| HeightField.Samples | h322r16.py:95-121 | `read_h32` returns `x2 * y2` heights |
| HeightField.RowsAt | h322r16.py:95-121 | the rows before `x` hold `x * y2` samples, sample `(i, j)` at `i * y2 + j` |
| HeightField.DetailUpTo | h322r16.py:99-117 | the detail image has the image's shape |
| HeightField.ReadH32 | h322r16.py:68-124 | the loops return the samples, the detail image and the sides of a successful read, or the first visit's error |
| HeightField.ReadRow | h322r16.py:95-121 | one `x` computes its row of heights and draws it, or fails with the first error of the row |
| HeightField.Visit | h322r16.py:96-121 | one visit appends the height, draws the cell and moves past its triple, or raises |
| HeightField.RowReads | h322r16.py:104-114 | the reads made by the end of row `x` are those made before row `x + 1` |
| HeightField.DrawStep | h322r16.py:99-117 | a visit changes the detail image only at its own cell, and only when it draws inside the image |
| HeightField.DetailDone | h322r16.py:95-121 | after every row the drawn image is `Detail` |
| HeightField.DrawnCellsFit | h322r16.py:88-117 | on a square grid every pixel drawn is inside the image |
| HeightField.DataCellInside | h322r16.py:104-114 | in-data triples lie within the first `3 * width * height` bytes |
| HeightField.ReadSucceeds | h322r16.py:68-124 | `read_h32` returns iff the file holds `3 * width * height` bytes and the padded sides are equal or (outside unity mode) one of them is zero |
| HeightField.FailingCell | h322r16.py:95-121 | on a short file, or a grid whose sides are both positive and unequal, some visit fails |
| HeightField.NonSquareCell | h322r16.py:88-117 | a grid whose sides are both positive and unequal has a cell the loops draw outside the image |
| HeightField.ReadFailure | h322r16.py:68-124 | `struct.error` comes only from a short file and `IndexError` only from a grid whose sides are both positive and unequal |
| HeightField.ReadSamples | h322r16.py:95-121 | a successful read's sample `(x, y)` sits at `x * y2 + y`: zero for padding, `b + (g << 8)` of triple `x * height + y` otherwise |
| HeightField.ReadDetail | h322r16.py:99-117 | a successful read's image holds the `r` byte of each in-data sample at `(y, x)` and black elsewhere |
| HeightField.TrailingIgnored | h322r16.py:123 | bytes past the last triple are never read |
| HeightField.GridCell | h322r16.py:95-121 | every index below `x2 * y2` is `x * y2 + y` of one grid cell |
| H32Convert.OneHot | h322r16.py:143-163 | channel `c` is 255 and the other three are 0 |
| H32Convert.Blank | h322r16.py:166 | a new `RGBA` image has the given shape |
| H32Convert.LayerBefore | h322r16.py:165-167 | a layer has the image's shape while the loop runs |
| H32Convert.Paint | h322r16.py:136-167 | one pixel of the splat loop: skipped when `r >= 32`, otherwise its one-hot colour set in layer `r // 4`, created blank if missing |
| H32Convert.PaintSkips | h322r16.py:140-141 | a detail value of 32 or more changes nothing |
| H32Convert.PaintFills | h322r16.py:143-167 | any other value lights its channel in its layer, starting the layer blank if new |
| H32Convert.PaintStep | h322r16.py:136-167 | painting `(x, y)` changes at most that pixel of layer `r // 4` and adds that layer if missing |
| H32Convert.Splat | h322r16.py:133-167 | the loops over columns and rows leave exactly the masks `SplatMasks` describes |
| H32Convert.SplatLayers | h322r16.py:133-167 | layer `k` exists iff some pixel selects it, and then holds each pixel's one-hot colour if it selects `k` and clear otherwise |
| H32Convert.SplatRoundTrip | h322r16.py:133-167 | the masks lose nothing below 32: the first lit channel across layers spells out each pixel's detail value, and values of 32 or more light nothing |
| H32Convert.LitChannel | h322r16.py:143-163 | a channel reported lit holds 255, and none holds 255 when none is reported |
| H32Convert.RawColumn | h322r16.py:181-182 | column `x` of the raw file holds `y2` values |
| H32Convert.RawColumns | h322r16.py:180-182 | the columns before `x` hold `x * y2` values |
| H32Convert.Transposed | h322r16.py:179-182 | the writer emits `x2 * y2` values |
| H32Convert.RawColumnsAt | h322r16.py:180-182 | raw position `x * y2 + y` holds `data[y * x2 + x]` |
| H32Convert.TransposedAt | h322r16.py:179-182 | the writer's order maps position `(x, y)` to `data[y * x2 + x]` |
| H32Convert.TransposeInvolution | h322r16.py:179-182 | applying the raw order twice with the sides swapped gives the samples back: the order is a permutation |
| H32Convert.EncodeHeights | h322r16.py:182 | `<H` encodings take 2 bytes per height |
| H32Convert.EncodeHeightsAt | h322r16.py:182 | each height sits in its own 2-byte group |
| H32Convert.DecodeHeights | h322r16.py:182 | a raw file of even length holds half as many heights |
| H32Convert.HeightsRoundTrip | h322r16.py:182 | reading a raw file back gives the heights written |
| H32Convert.WriteRaw | h322r16.py:179-182 | the writer emits `RawFile`: the `<H` encodings of `data[y * x2 + x]`, `x` outside and `y` inside |
| H32Convert.WriteColumn | h322r16.py:181-182 | the inner loop emits column `x` |
| H32Convert.RawFile | h322r16.py:179-182 | the raw file has `2 * x2 * y2` bytes |
| H32Convert.RawIsTranspose | h322r16.py:95-182 | a read grid comes out of the writer transposed: raw position `(x, y)` holds sample `(y, x)`, zero in the padding and `b + (g << 8)` otherwise |
| H32Convert.DoConvert | h322r16.py:128-182 | the conversion reads the grid, builds the splat masks of the detail image and writes the raw file, or fails as `read_h32` fails |
| Brush.TrimNul | load_brush.py:83 | `seg[:seg.find(0)]` is the bytes before the first NUL, or all but the last byte when there is none |
| Brush.TrimNulPadded | load_brush.py:83-93 | a string followed by a NUL and any padding trims back to the string |
| Brush.PyIndex | load_brush.py:111 | `xs[idx]` is defined for `-len(xs) <= idx < len(xs)`, a negative index counting from the end; otherwise `IndexError` |
| Brush.NameAt | load_brush.py:81-84 | a name entry reads `<i` `sl` and `sl - 4` bytes, trimmed and decoded; `sl < 4` is a format error |
| Brush.MetaAt | load_brush.py:90-99 | a metadata entry consumes `4 + 128 + (sl - 132)` bytes and needs `sl - 132 >= 28` for the type and six floats |
| Brush.InstanceAt | load_brush.py:106-111 | an instance consumes exactly 88 bytes and looks its name up in the table, raising `IndexError` out of range |
| Brush.FileNames | load_brush.py:99 | one file name per metadata entry |
| Brush.MetaLines | load_brush.py:101 | one row per metadata entry |
| Brush.InstanceLines | load_brush.py:111-112 | one row per instance |
| Brush.RowsSnoc | load_brush.py:99-101 | one more entry adds one file name and the next row |
| Brush.InstanceGrowth | load_brush.py:105-112 | the third segment appends rows to `_line2s` only, each naming an entry of the table |
| Brush.MetaGrowth | load_brush.py:87-112 | the second and third segments only grow the lists, `_cgf_filenames` and `_lines` by the same number |
| Brush.ParseGrowth | load_brush.py:73-125 | on any bytes and any earlier lists, `parse` only appends: `_cgf_filenames` and `_lines` grow together, rows numbered `i + 1` |
| Brush.NamesFirst | load_brush.py:78-85 | strings appended to the first list before a later growth leave the other lists' growth unchanged |
| Brush.BrushTables.constructor | load_brush.py:15-18 | the class-level lists start empty |
| Brush.BrushTables.Init | load_brush.py:26-28 | each new instance appends the two column titles |
| Brush.BrushTables.Parse | load_brush.py:73-125 | `parse` leaves the outcome and lists `ParseSpec` gives |
| Brush.BrushTables.ParseMetas | load_brush.py:87-125 | the second and third segments, as `MetaSpec` |
| Brush.BrushTables.ParseInstances | load_brush.py:103-125 | the third segment, as `InstanceSpec` |
| Brush.BrushTables.ReadNames | load_brush.py:80-85 | the first loop appends the strings read, even when it stops early |
| Brush.BrushTables.ReadMetas | load_brush.py:89-101 | the second loop appends a file name and a row per entry |
| Brush.BrushTables.ReadInstances | load_brush.py:105-112 | the third loop appends a row per record, looked up in the whole table |
| Brush.NameLoop | load_brush.py:80-85 | the loop computes `Repeat` over the name entries |
| Brush.MetaLoop | load_brush.py:89-101 | the loop computes `Repeat` over the metadata entries and its rows |
| Brush.InstanceLoop | load_brush.py:105-112 | the loop computes `Repeat` over the instance records and its rows |
| Brush.EncodeName | load_brush.py:81-84 | a name entry is `4 + len(s) + 1` bytes |
| Brush.EncodeMeta | load_brush.py:90-98 | a metadata entry is its length word, the 128-byte name, the type and 4 bytes per float |
| Brush.InstanceBytesRoundTrip | load_brush.py:106-107 | the 28 fields of `<iii4B4Bi12f4i` survive a write and a read |
| Brush.InstanceBytesSound | load_brush.py:106-107 | every 88-byte record is the encoding of the fields read from it |
| Brush.NameRoundTrip | load_brush.py:81-84 | an encoded name entry reads back as its string |
| Brush.MetaRoundTrip | load_brush.py:90-99 | an encoded metadata entry reads back |
| Brush.PlacedRoundTrip | load_brush.py:106-111 | an encoded instance reads back with its looked-up name |
| Brush.BrushRoundTrip | load_brush.py:78-117 | bytes holding the three lists after the 11-byte header read back every string, entry and record, appended to the lists, and report whether the lists ran to the end |
| Brush.EncodedBrushRoundTrip | load_brush.py:73-125 | a file as written, plus trailing bytes, reads back, and the lists ran to the end iff nothing trails; trailing bytes only warn |
| Vegetation.Dequantise | load_vegatation.py:86-88 | `raw / 65535 * 2 * 1536` lies in `[0, 3072]` |
| Vegetation.DequantiseEnds | load_vegatation.py:86-88 | 0 maps to 0 and 65535 to 3072 |
| Vegetation.DequantiseMonotone | load_vegatation.py:86-88 | a larger raw value gives a larger coordinate |
| Vegetation.DequantiseInverse | load_vegatation.py:86-88 | scaling back recovers the raw value, so the map is injective |
| Vegetation.RecordCount | load_vegatation.py:75-79 | `(total - 4) % per_size` must be 0 (a zero size raises) and the loop runs `(total - 4) / per_size - 1` times |
| Vegetation.EncodeRecord | load_vegatation.py:81-83 | a record is 7 bytes plus one per attribute byte |
| Vegetation.RecordAt | load_vegatation.py:81-83 | one record succeeds iff 16 bytes remain, whatever `per_size` is, and then moves 16 on with nine attribute bytes; otherwise a short read |
| Vegetation.RecordSound | load_vegatation.py:81-83 | a record read is exactly the 16 bytes it came from |
| Vegetation.RecordRoundTrip | load_vegatation.py:81-83 | reading a record's bytes gives the record back |
| Vegetation.HexFields | load_vegatation.py:91 | the nine attribute bytes become nine `%x` fields |
| Vegetation.LinesOf | load_vegatation.py:89-91 | three lines per record |
| Vegetation.IdTextRoundTrip | load_vegatation.py:90 | the id line reads back as the id |
| Vegetation.AttrTextRoundTrip | load_vegatation.py:91 | the attribute line ends in a newline and splits at its commas into one hex field per byte, in order |
| Vegetation.RecordLinesInjective | load_vegatation.py:89-91 | the three lines determine the record |
| Vegetation.LinesSnoc | load_vegatation.py:89-91 | `_lines` grows by the lines of one more record |
| Vegetation.LinesOfAt | load_vegatation.py:89-91 | record `k`'s lines sit at `3k` |
| Vegetation.RecordRun | load_vegatation.py:79-91 | the loop stops early only for want of a whole record, and record `j` is the one at `4 + 16j` |
| Vegetation.ParseOutcome | load_vegatation.py:70-99 | `parse` appends three lines per record read, record `k` the 16 bytes at `4 + 16k` whatever the header says, and succeeds iff the size is accepted and every record is there |
| Vegetation.AlignedRoundTrip | load_vegatation.py:70-99 | with a header of 16 and records behind it, every record but the last is read back and the last is never read |
| Vegetation.VegetationLines.constructor | load_vegatation.py:14-26 | the class-level list starts empty and `__init__` adds nothing |
| Vegetation.VegetationLines.Parse | load_vegatation.py:70-99 | `parse` leaves the outcome and list `ParseSpec` gives |
| PcParts.FirstChar | convert_pc.py:21 | `s[0]` of a nonempty UTF-8 string is a nonempty prefix of it |
| PcParts.RaceGender | convert_pc.py:21-32 | `(race[0] + gender[0]).lower()` succeeds iff race and gender are nonempty (else `IndexError`), and is the two ASCII first characters lowered |
| PcParts.ModelPaths | convert_pc.py:18-27 | one mesh path, plus the `short` variant iff the lowered name ends in `foot` or `hand` |
| PcParts.AlnumRun | convert_pc.py:36 | the run of letters and digits from `i` is maximal |
| PcParts.ModelDirName | convert_pc.py:34-38 | the directory is a prefix of the lowered name |
| PcParts.ModelDirNameMatch | convert_pc.py:34-38 | when the pattern matches, the directory is the match Python's backtracking picks: group 1 the only possible one, group 2 the longest |
| PcParts.MatchGroupOne | convert_pc.py:36 | group 1 of any match is the whole leading run of letters and digits |
| PcParts.ModelDirNameNoMatch | convert_pc.py:34-38 | without a match the directory is the whole name |
| PcParts.ModelOutputPath | convert_pc.py:29-41 | the output path exists iff race and gender are nonempty, `IndexError` otherwise |
| PcParts.TexturePaths | convert_pc.py:43-59 | six entries iff race and gender are nonempty, `IndexError` otherwise |
| PcParts.TextureKeysDistinct | convert_pc.py:50-57 | the six keys are distinct, so the dictionary keeps all six |
| PcParts.TexturePathsPlain | convert_pc.py:43-59 | the keys are the first mesh path less `.cgf` plus each suffix, and `.dds` maps to `_albedo.dds` in the output directory |
| PcParts.MeshSplit | convert_pc.py:44-48 | the mesh path splits into the stem and `.cgf`, the stem's file name being `<rg><name>` |
| PcParts.OutputJoin | convert_pc.py:48 | joining the output directory with `<rg><name>` puts one `\` between them |
| PcParts.OutputDirShape | convert_pc.py:30-40 | the output directory has no drive and ends in no separator |
| PcConvert.Parts | convert_pc.py:140-145 | four parts per model name, all with a race and a gender |
| PcConvert.PartsOrder | convert_pc.py:142-145 | name `i`, race `m`, gender `n` is part `4i + 2m + n`: names outer, `lf`/`df`, then `male`/`female` |
| PcConvert.EnumerateParts | convert_pc.py:140-145 | the nested loops build `Parts` |
| PcConvert.PartCommands | convert_pc.py:153-158 | one or two blender commands per part |
| PcConvert.FbxFor | convert_pc.py:154-158 | one command per mesh path |
| PcConvert.PlanOf | convert_pc.py:153-166 | a part's plan has one or two commands and six texture jobs |
| PcConvert.Plans | convert_pc.py:152 | one plan per part |
| PcConvert.FoundIn | convert_pc.py:161-165 | at most one found texture per job looked at |
| PcConvert.Dirs | convert_pc.py:166 | one output directory per found texture |
| PcConvert.DdsCommands | convert_pc.py:182-185 | one `dds2png` command per directory, in order |
| PcConvert.FoundExists | convert_pc.py:161-165 | every found texture exists and is one of the jobs |
| PcConvert.CopyEntry | convert_pc.py:165-178 | a texture is found iff its source exists, and then its directory is counted |
| PcConvert.CopyTextures | convert_pc.py:161-178 | the textures of one part are found in order and the counts track their directories |
| PcConvert.ModelCommands | convert_pc.py:154-158 | the loop builds `FbxFor` |
| PcConvert.MakePlan | convert_pc.py:153-166 | the method builds `PlanOf` |
| PcConvert.PlanStep | convert_pc.py:152-166 | one more part's plan appended |
| PcConvert.MakePlans | convert_pc.py:152-166 | the loop builds `Plans` |
| PcConvert.RunPlans | convert_pc.py:152-178 | the blender commands in order, and the found textures with `texture_dirs` counting their directories |
| PcConvert.EmitDds | convert_pc.py:182-185 | one `dds2png` command appended per directory |
| PcConvert.Convert | convert_pc.py:123-185 | without a blender executable (`--textures-only` and no `-b`) and with at least one model name, the `' '.join` of line 159 raises `TypeError` on the first command, before anything is copied or counted; otherwise the queued commands are the blender ones then one `dds2png` per distinct directory in first-found order, no copies under `--test`, and `texture_dirs` counts the found textures per directory |
| PcConvert.OneDdsPerDir | convert_pc.py:175-185 | the `dds2png` commands name every key of `texture_dirs` exactly once |
| DirCount.DedupDistinct | convert_pc.py:175-182 | the keys in insertion order are the directories seen, each once |
| DirCount.OccurrencesPositive | convert_pc.py:175-178 | a directory is counted at least once iff it was seen |
| DirCount.CountStep | convert_pc.py:175-178 | one more directory: created at 0 if missing, then incremented |
| DirCount.CountsAreMultiplicities | convert_pc.py:175-178 | the dictionary holds exactly the directories seen, each with its multiplicity |
| DirCount.DedupStep | convert_pc.py:175-176 | a new directory is appended to the keys, a known one leaves them alone |
| DirCount.Record | convert_pc.py:175-178 | the method keeps the counts and the insertion-ordered keys in step with the directories seen |

## Left out

- Blender scene building (`load_terrain_mesh`, `load_models`, `load_map`, `clear_all_data` in `load_geomap.py`): calls into `bpy` and `mathutils`.
- Running subprocesses: the `CommandExecutor` in `convert_pc.py` and `commands.py`. `PcConvert.Convert` returns the command list instead of running it. The text of the blender executable, `sys.executable` and the script paths are left out of each command; only whether `-b` was given is kept.
- Argument parsing (`optparse`, `argparse`), `parse_arguments`, logging, the `print` calls, the `dump`/`dump_output` CSV of `read_map`, `_write_to_test` and `test_data_hold`.
- Writing files: the CSV files of the brush and vegetation scripts, the DDS files of `parse_tile` (returned as byte strings instead), the raw file of `h322r16.py` (returned as bytes), `os.makedirs` and `shutil.copy2` in `convert_pc.py` (the copies are returned as jobs).
- The DDS deletion after the commands run (`convert_pc.py:193-203`): it walks the file system.
- Reading model names from files (`convert_pc.py:130-135`): `PcConvert.Convert` takes the final list of names.
- File-system queries: `os.path.exists` is a parameter predicate, and `fixed_basename` (`load_geomap.py:100-117`) is a parameter function, since it lists directories.
- PIL: `Image.new`, `putpixel` and `getpixel` are modelled as a grid of pixels. `rotate(90)` and `save` are left out.
- The name-resolution half of `read_map` (`load_geomap.py:214-245`): `GeoMap.ReadMap` models the call with `resolve_name=False` and `game_dir=b''`, the defaults `load_map` uses (`load_geomap.py:315`). With resolution on, or with a non-empty `game_dir`, the call can also raise (`TypeError` at line 226 when the name and `game_dir` differ in type) or hang in `parse_geoname` (`GeoName.LeadingUnderscoreHangs`); those outcomes of `read_map` are not modelled, though `GeoName` models `parse_geoname` itself.
- Floating point: f32 fields are carried as bit patterns. `%f` formatting of floats in the CSV rows is left out. The bounding box uses IEEE comparison on the patterns.
- `math.log2`, `math.ceil` and `math.pow` are integer logarithms and powers of two. This is exact for the positive integer sides they receive.
- Paths.OutputBaseName: does not model `os.path.normpath`; the path is taken as already normalised.
- Paths.SplitDrive: follows `ntpath` (Windows separators), the platform the tools target; `posixpath` behaviour is not modelled.
- Bytes.Lower: ASCII case folding only, which is what `bytes.lower()` does. The `str.lower()` of `convert_pc.py` and `re.I` are modelled the same way, so non-ASCII letters are not folded.
- PcConvert.Convert: `convert_pc.py` is written to run under Python 2 or 3 (it imports `print_function` from `__future__`). The model follows Python 3.7 and later: `getTexturePaths()` and `texture_dirs` iterate in insertion order, and `race[0]` is a whole character (`PcParts.FirstChar`). Under Python 2 the dictionary order is arbitrary and `race[0]` is one byte. The races and genders are fixed ASCII strings, so both readings give the same paths, and the proved properties (one `dds2png` per key, the counts) do not depend on the order.
- PcConvert.Convert: the paths of every part are computed as plans before the loop over parts rather than inside it. The path functions are pure, so the commands, copies and counts are the same.
- GeoName.ProbeSpec: a search that never ends is the `Hangs` outcome rather than a non-terminating loop.
- The `Brush` classes of both table scripts share class-level lists across instances. Each model class keeps those lists as its own fields, so two instances of the model do not share them.
