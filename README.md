# avaread in Dafny

A model of the reader for Avantes AvaSoft 8 spectrometer files in `src/avaread/reader.py`
and of the record layouts in `src/avaread/AvaTypes.py`, with proofs about them.

An AvaSoft file comes in one of two container formats:

- A regular `AVS` file. A 6-byte preamble (magic, version, channel count) is followed by one
  block per channel. Each block holds a 322-byte `AVSInfoBlock` header, then `4*n`
  little-endian four-byte words (wavelength, scope, dark and reference planes), then 10
  bytes of padding. The next block starts at `start + blockLength + 10`.
- A store-to-RAM `STR` file. A 7-byte preamble (magic, version, frame count) is followed by
  a 329-byte `STRInfoBlock`. At absolute offset 10000 comes a 6-byte `<hbhb` block that
  holds the pixel count. `pixels` doubles are skipped. Then come three pixel arrays
  (wavelength, dark, reference). Then, frame by frame, comes a `c_long` delay followed by
  `pixels` eight-byte samples.

The project has one module per concern:

| file | module | what it holds |
|---|---|---|
| `wrappers.dfy` | `Wrappers` | `Option`, `Result`, and the Python exceptions the reader raises |
| `bytes.dfy` | `Bytes` | little-endian integers, NUL-terminated `c_char` values, Python slicing, fixed-width chunks |
| `ava_types.dfy` | `AvaTypes` | the five IntEnums; every `_fields_` table with its `_map`; sizes and offsets under `_pack_ = 1` |
| `struct_mapping.dfy` | `StructMapping` | `StructMapping.__getattr__` as a function over a record's raw bytes |
| `record_fields.dfy` | `RecordFields` | the mapper on the sub-record fields both formats read |
| `timestamp.dfy` | `Timestamp` | `_extract_datetime` and the packing it inverts |
| `byte_stream.dfy` | `ByteStreams` | a class for the open file handle: `tell`, `seek`, `readinto`, `np.fromfile` |
| `avs_channel.dfy` | `AvsChannel` | `AVSChannel.from_buffer`, the de-interleaving of the payload, the channel's accessors |
| `avs_file.dfy` | `AvsFile` | `AVSFile.__init__`, its channel chain, `__getitem__`, `__len__`, `date` |
| `str_file.dfy` | `StrFile` | `STRFile.__init__` as a class with a `delay` array and a `data` matrix filled in place, and its views |
| `read_file.dfy` | `ReadFile` | `read_file`: tag decoding, `int()` of the version, case-insensitive dispatch |

Modelling choices:

- Bytes are a `byte` newtype.
- Floating-point samples are opaque `Chunk`s of 4 or 8 bytes.
- The float subtraction behind `signal` is a function parameter `sub`.
- A file's contents are a `seq<byte>`. The file handle is a `ByteStream` object whose
  position methods change it in place.
- `sizeof(c_long)` is the parameter `long`, which is 4 or 8.
- Python exceptions are `Failure` values of a `Result`.
- The source reads without checking lengths. The model states instead, as a precondition,
  that the stream holds every byte the file announces.

## Model

| member | source | states |
|---|---|---|
| `AvaTypes.FromInt` | src/avaread/AvaTypes.py:30-75 | `EnumClass(x)` yields a member exactly when x is one of the enumeration's declared values (`DeviceStatus`, `MeasurementEnum` 0..7, `TrigMode` 0..1, `TrigSource` 0..2, `TrigKind` 0..1), and that member belongs to the enumeration and has value x |
| `AvaTypes.FromIntToInt` | src/avaread/AvaTypes.py:30-75 | every member's value is declared, and converting it back gives the member again: the enumerations have no aliases |
| `AvaTypes.FieldIndex` | src/avaread/reader.py:70-71 | the `next(...)` lookup of a name in `_fields_` fails exactly when no field has the name; otherwise it gives a field with that name and no earlier field has it |
| `AvaTypes.OffsetMonotone` | src/avaread/AvaTypes.py:81 | with 1-byte packing, offsets never decrease along the declaration order |
| `AvaTypes.FieldsDisjoint` | src/avaread/AvaTypes.py:81 | every field ends at or before the start of any later field, and the last one ends within the record's `sizeof` |
| `AvaTypes.OffsetStep` | src/avaread/AvaTypes.py:81 | field i+1 starts exactly where field i ends: no padding |
| `AvaTypes.FieldWithin` | src/avaread/AvaTypes.py:81 | every field lies inside its record |
| `AvaTypes.PackedSizes` | src/avaread/AvaTypes.py:81-256 | every record's `sizeof` (Identity 75, DarkCorrection 2, Smoothing 3, Trigger 3, ControlSettings 16, MeasConfig 41, MiscInfo 24, AVSPreamble 6, AVSInfoBlock 322, STRPreamble 7, STRInfoBlock 329) is the sum of its fields' sizes, with nested records inline |
| `AvaTypes.NamesUnique` | src/avaread/AvaTypes.py:86-256 | no `_fields_` table declares a name twice |
| `AvaTypes.FieldNamed` | src/avaread/reader.py:70-71 | looking a field up by its own name finds that field, so the mapper's `next(...)` is well defined |
| `AvaTypes.EnumMapFieldsAreBytes` | src/avaread/AvaTypes.py:83-219 | every name in a `_map` table (Identity `Status`, Trigger `Mode`/`Source`/`SourceType`, AVSInfoBlock `measurementEnum`; the rest inherit the empty map) is a `c_uint8` field of the same record |
| `AvaTypes.IdentityLayout` | src/avaread/AvaTypes.py:86-96 | Identity: `UserFriendlyName` at 10, `Status` at 74, size 75 |
| `AvaTypes.SmallRecordLayouts` | src/avaread/AvaTypes.py:99-129 | DarkCorrection, Smoothing and Trigger offsets, and their sizes 2, 3 and 3 |
| `AvaTypes.ControlSettingsLayout` | src/avaread/AvaTypes.py:132-142 | ControlSettings offsets 2, 6, 10 and 14, size 16 |
| `AvaTypes.MeasConfigLayout` | src/avaread/AvaTypes.py:145-160 | MeasConfig offsets: StartPixel 0, StopPixel 2, IntegrationTime 4, IntegrationDelay 8, NrAverages 12, CorDynDark 16, Smoothing 18, SaturationDetection 21, Trigger 22, Control 25; size 41 |
| `AvaTypes.MiscInfoLayout` | src/avaread/AvaTypes.py:163-176 | MiscInfo: `file_datetime` at 0, `detectorTemp` at 4, `CalIntTime` at 20, size 24 |
| `AvaTypes.PreambleLayouts` | src/avaread/AvaTypes.py:179-236 | AVSPreamble is 6 bytes with `channels` at 5; STRPreamble is 7 bytes with `frames` at 5 |
| `AvaTypes.AvsInfoBlockLayout` | src/avaread/AvaTypes.py:196-217 | AVSInfoBlock offsets: blockLength 0, measurementEnum 5, ID 8, Measurement 83, timestamp 124, Misc 128, aFit 152, comment 192; size 322 |
| `AvaTypes.StrInfoBlockLayout` | src/avaread/AvaTypes.py:239-256 | STRInfoBlock offsets: ID 5, Measurement 80, Unused1 121, Misc 128, Unused2 152, comment 199; size 329 |
| `StructMapping.KindOf` | src/avaread/reader.py:70-71 | a name has a declared type exactly when `_fields_` declares it |
| `StructMapping.DecodeNumber` | src/avaread/reader.py:72 | integer ctypes give Python ints, and unsigned ones give their little-endian value; floats stay uninterpreted |
| `StructMapping.ArrayElems` | src/avaread/reader.py:76-79 | a numeric array gives one element per declared slot, element k decoded from the k-th chunk |
| `StructMapping.GetAttrDispatch` | src/avaread/reader.py:70-88 | unknown name ⇔ AttributeError; char array ⇔ text; other array ⇔ numbers of the declared count; `_map` entry ⇔ an enumeration member of the mapped class or ValueError; nested record outside `_map` ⇔ a mapping over the inner record's bytes; scalar outside `_map` ⇔ the plain value; no other error |
| `StructMapping.GetAttrText` | src/avaread/reader.py:73-75 | a `c_char` array field reads as the text of its bytes |
| `StructMapping.GetAttrNested` | src/avaread/reader.py:82-83 | a nested record field reads as a mapping over exactly its own bytes |
| `StructMapping.GetAttrPlain` | src/avaread/reader.py:84-85 | a scalar outside `_map` reads as its decoded value |
| `StructMapping.GetAttrArray` | src/avaread/reader.py:76-79 | a numeric array field reads as its elements, element k decoded from the k-th slot of the field's bytes |
| `StructMapping.GetAttrEnum` | src/avaread/reader.py:80-81 | a `_map` field is a `c_uint8`; it reads as the member of the mapped enumeration whose value is the field's integer, and raises ValueError exactly when no member has that value |
| `StructMapping.EnumBranch` | src/avaread/reader.py:80-81 | for a `_map` scalar the mapper's result is decided by `EnumClass(value)` alone |
| `RecordFields.StartPixelField` | src/avaread/AvaTypes.py:150 | `Measurement.StartPixel` is the u16 at bytes 0-1 of a MeasConfig |
| `RecordFields.StopPixelField` | src/avaread/AvaTypes.py:151 | `Measurement.StopPixel` is the u16 at bytes 2-3 of a MeasConfig |
| `RecordFields.SerialNumberField` | src/avaread/AvaTypes.py:91 | `ID.SerialNumber` is the text of the first `AVS_SERIAL_LEN` = 10 bytes of an Identity |
| `RecordFields.FileDatetimeField` | src/avaread/AvaTypes.py:170 | `Misc.file_datetime` is the u32 at bytes 0-3 of a MiscInfo |
| `Timestamp.Unpack` | src/avaread/reader.py:24-29 | month < 16, day < 32, hour < 32, minute < 64, and a 32-bit value gives year < 4096 |
| `Timestamp.UnpackPack` | src/avaread/reader.py:23-30 | packing an in-range tuple as `y<<20 \| mo<<16 \| d<<11 \| h<<6 \| mi` and unpacking returns the tuple |
| `Timestamp.PackUnpack` | src/avaread/reader.py:24-29 | packing the unpacked fields gives back the timestamp: unpacking loses no bit |
| `Timestamp.ExtractDatetime` | src/avaread/reader.py:23-30 | `_extract_datetime` succeeds exactly when the unpacked fields are a valid `datetime`, and raises ValueError otherwise; a result packs back to the timestamp |
| `Timestamp.ExtractPacked` | src/avaread/reader.py:23-30 | every valid date with year < 4096 packs into 32 bits and decodes to itself |
| `ByteStreams.ByteStream.constructor` | src/avaread/reader.py:270 | a freshly opened file is positioned at 0 |
| `ByteStreams.ByteStream.Tell` | src/avaread/reader.py:165 | `tell` reports the position |
| `ByteStreams.ByteStream.Seek` | src/avaread/reader.py:176 | absolute `seek` sets the position |
| `ByteStreams.ByteStream.SeekRelative` | src/avaread/reader.py:167 | `seek(off, SEEK_CUR)` moves the position by off |
| `ByteStreams.ByteStream.Read` | src/avaread/reader.py:168 | `readinto`/`read(n)` returns the next n bytes and advances by n |
| `ByteStreams.ByteStream.FromFile` | src/avaread/reader.py:172 | `np.fromfile(count)` returns the next count items of the given width and advances past them; a negative count returns every whole item left in the file |
| `Bytes.SignedLittleEndian` | src/avaread/reader.py:358-360 | a signed little-endian field is the two's-complement reading of its bytes |
| `Bytes.UntilNulExact` | src/avaread/reader.py:272 | a `c_char` array compares equal to a NUL-free magic of its own length exactly when its bytes are that magic |
| `Bytes.ChunkAt` | src/avaread/reader.py:172 | item k of `np.fromfile` is bytes `k*w .. (k+1)*w` of what it consumed |
| `AvsChannel.BlockLengthViaMapper` | src/avaread/AvaTypes.py:203 | `header.blockLength` is the u16 at header bytes 0-1 |
| `AvsChannel.MeasurementViaMapper` | src/avaread/AvaTypes.py:209 | `header.Measurement` maps header bytes 83..124 as a MeasConfig |
| `AvsChannel.PixelRangeViaMapper` | src/avaread/reader.py:169 | `Measurement.StartPixel`/`StopPixel` are the u16s at header bytes 83 and 85 |
| `AvsChannel.IdViaMapper` | src/avaread/AvaTypes.py:208 | `header.ID` maps header bytes 8..83 as an Identity |
| `AvsChannel.SerialViaMapper` | src/avaread/reader.py:179-182 | `serial` is `ID.SerialNumber` of that Identity |
| `AvsChannel.MiscViaMapper` | src/avaread/AvaTypes.py:214 | `header.Misc` maps header bytes 128..152 as a MiscInfo |
| `AvsChannel.FileDatetimeViaMapper` | src/avaread/AvaTypes.py:170 | `Misc.file_datetime` is the u32 at header bytes 128-131 |
| `AvsChannel.NoTimestampAttribute` | src/avaread/reader.py:187 | asking the header mapping for `Timestamp` raises AttributeError: the header has no such field |
| `AvsChannel.Deinterleave` | src/avaread/reader.py:172 | `reshape(4, -1).T` of `4*n` words is an n-row table with four columns |
| `AvsChannel.Len` | src/avaread/reader.py:155-157 | `len(channel)` is `StopPixel - StartPixel + 1`, and Python's `len` raises ValueError exactly when that is negative; on a decoded channel it is the number of table rows |
| `AvsChannel.Column` | src/avaread/reader.py:206-230 | `data[:, c]` has one entry per row, entry p being row p's column c |
| `AvsChannel.PlaneMajor` | src/avaread/reader.py:172 | row p, column c of the de-interleaved table is word `c*n + p`, so column c is the c-th plane of n words |
| `AvsChannel.InterleaveDeinterleave` | src/avaread/reader.py:172 | de-interleaving loses nothing: re-interleaving gives the words back |
| `AvsChannel.DeinterleaveInterleave` | src/avaread/reader.py:172 | every 4-column table is the de-interleaving of its plane-major words |
| `AvsChannel.Signal` | src/avaread/reader.py:232-235 | `signal` has one entry per table row, entry p being `scope[p] - dark[p]` |
| `AvsChannel.DateAsWrittenFails` | src/avaread/reader.py:184-187 | `date` as written raises AttributeError on every channel |
| `AvsChannel.Date` | src/avaread/reader.py:184-187 | the corrected `date` decodes `Misc.file_datetime`: it succeeds exactly when that packed value is a valid date, which it packs back to |
| `AvsChannel.BlockAt` | src/avaread/reader.py:165-177 | the channel read at a block start has the 322 header bytes there and a 4-column table with `StopPixel - StartPixel + 1` rows, or, for a negative count, one row per four words left in the file |
| `AvsChannel.NextBlock` | src/avaread/reader.py:176 | the next block starts at least 10 bytes after this one |
| `AvsChannel.BlockPlanes` | src/avaread/reader.py:169-172 | row p, column c of a channel's table is the four-byte word `(c*n + p)` after the header, where n is the number of rows |
| `AvsChannel.PayloadWord` | src/avaread/reader.py:172 | the same fact for any payload position |
| `AvsChannel.PayloadRead` | src/avaread/reader.py:169-172 | the words `np.fromfile` returns after the header split into four planes exactly when the block reshapes, which fails only for a negative pixel count whose remaining word count is not a multiple of 4; otherwise they give the block's channel |
| `AvsChannel.ReadChannel` | src/avaread/reader.py:160-177 | `from_buffer` raises ValueError exactly when the pixel count is negative and the words left after the header are not a multiple of 4; otherwise it returns the block at `tell() + offset` and leaves the cursor at `tell() + blockLength + 10`, where `tell()` is taken before the seek by `offset`, so the offset is not added; this holds however many payload bytes it read |
| `AvsFile.MagicExact` | src/avaread/reader.py:272 | the preamble check passes exactly when the first three bytes are `AVS` |
| `AvsFile.ChainRead` | src/avaread/reader.py:276 | block i of the chain lies in the file; the chain decodes one block further exactly when that block reshapes, and a block that does not stops the whole chain |
| `AvsFile.ChannelsFrom` | src/avaread/reader.py:276 | reading `count` chained blocks gives `count` channels, each well formed |
| `AvsFile.ChainStep` | src/avaread/reader.py:276 | one more iteration appends the block at the current cursor, and the cursor moves to that block's successor |
| `AvsFile.ChainEndSum` | src/avaread/reader.py:276 | after N channels the cursor has moved by the sum of `blockLength_i + 10` |
| `AvsFile.ChannelAt` | src/avaread/reader.py:276 | channel k is the block that starts where the first k blocks end |
| `AvsFile.ReadAvsFile` | src/avaread/reader.py:268-276 | `AVSFile` fails with AvaReadException exactly when the magic is not `AVS`, and otherwise with ValueError exactly when some announced block does not reshape; on success it keeps the preamble and reads exactly `preamble.channels` channels, in stream order, so `len` is the channel count |
| `AvsFile.ReadChannels` | src/avaread/reader.py:276 | the list comprehension of `from_buffer` calls stops with ValueError exactly when a block in the chain does not reshape, and otherwise gives the chained channels in order |
| `AvsFile.IndexOf` | src/avaread/reader.py:295 | `keys.index(key)` is the first position holding key |
| `AvsFile.Serials` | src/avaread/reader.py:292 | `keys` lists each channel's `ID.SerialNumber`, in channel order |
| `AvsFile.GetItemIndex` | src/avaread/reader.py:287-290 | an integer key succeeds exactly when `-len <= key < len`, and fails otherwise with IndexError; a non-negative key gives `channels[key]` and a negative one `channels[len + key]` |
| `AvsFile.GetItemSerial` | src/avaread/reader.py:291-295 | a serial key succeeds exactly when some channel carries it, and then gives the first such channel; an absent serial raises KeyError |
| `AvsFile.GetItemOwnSerial` | src/avaread/reader.py:291-295 | looking up a channel's own serial gives that channel when no earlier channel shares it |
| `AvsFile.FileDateAsWrittenFails` | src/avaread/reader.py:309-312 | the file's `date` as written always fails, with AttributeError when there is a channel |
| `AvsFile.Date` | src/avaread/reader.py:309-312 | the corrected file `date` is the first channel's date, or IndexError in a file without channels |
| `StrFile.HeadersFit` | src/avaread/reader.py:357 | preamble (7) plus header (329) end at byte 336, below the seek target 10000 |
| `StrFile.FrameWithin` | src/avaread/reader.py:370-372 | frame i, at `base + i*stride` with `stride = sizeof(c_long) + pixels*8`, lies inside the file |
| `StrFile.ArraysFit` | src/avaread/reader.py:363-366 | after the block at 10000 and the `pixels*8` skip, the three arrays of `pixels*8` bytes lie inside the file |
| `StrFile.PixelArray` | src/avaread/reader.py:364-366 | each of wavelength, dark and ref holds `pixels` samples |
| `StrFile.FrameColumn` | src/avaread/reader.py:372 | sample q of frame i is the q-th chunk after frame i's delay word |
| `StrFile.SubtractRows` | src/avaread/reader.py:455-458 | the intended signal keeps the matrix's shape and subtracts `dark[r]` from every entry of row r |
| `StrFile.BroadcastAccepts` | src/avaread/reader.py:458 | subtracting a length-k vector from a k×F matrix with numpy broadcasting succeeds exactly when F == k, F == 1 or k == 1, and raises ValueError otherwise |
| `StrFile.BroadcastSquare` | src/avaread/reader.py:458 | when F == k > 1 the broadcast subtracts `dark[c]` from column c, not `dark[r]` from row r |
| `StrFile.BroadcastCounterexample` | src/avaread/reader.py:458 | a 3-pixel, 2-frame window makes the broadcast fail while the intended signal exists |
| `StrFile.StrFile.constructor` | src/avaread/reader.py:367-368 | `np.zeros` allocates a `frames`-long delay array and a pixels×frames matrix, all zero, next to the three arrays |
| `StrFile.StrFile.ReadFrame` | src/avaread/reader.py:371-372 | one iteration sets `delay[i]` from its signed `c_long` word and column i from the following samples, moves the cursor by one stride, and changes no other delay entry or column |
| `StrFile.StrFile.ReadFrames` | src/avaread/reader.py:370-372 | after the loop every delay entry and every column holds its frame's values, and the cursor has moved by `frames * stride` |
| `StrFile.StrFile.WindowLength` | src/avaread/reader.py:432-458 | the numpy slice `[StartPixel:StopPixel]` of the sensor-wide arrays lies on the sensor |
| `StrFile.StrFile.Scope` | src/avaread/reader.py:437-443 | `scope` has one row per window pixel and one column per frame, row r being sensor row `StartPixel + r` |
| `StrFile.StrFile.Frame` | src/avaread/reader.py:389-394 | `file[index]` raises IndexError exactly when index lies outside `[-frames, frames)` |
| `StrFile.StrFile.Signal` | src/avaread/reader.py:455-458 | the corrected `signal` entry (r, i) is `scope[r][i] - dark[r]` |
| `StrFile.StrFile.WindowsAgree` | src/avaread/reader.py:415-453 | `wavelength`, `dark`, `ref` and `scope` all use the same half-open `[StartPixel, StopPixel)` window; on the sensor it has `pixels = StopPixel - StartPixel` rows |
| `StrFile.StrFile.MeasurementViaMapper` | src/avaread/AvaTypes.py:239-256 | `header.Measurement` maps header bytes 80..121 as a MeasConfig |
| `StrFile.StrFile.PixelRangeViaMapper` | src/avaread/reader.py:416-422 | `Start` and `Stop` are `Measurement.StartPixel` and `Measurement.StopPixel` as the mapper gives them, and `pixels` is `StopPixel - StartPixel` |
| `StrFile.StrFile.IdViaMapper` | src/avaread/AvaTypes.py:239-256 | `header.ID` maps header bytes 5..80 as an Identity |
| `StrFile.StrFile.SerialViaMapper` | src/avaread/reader.py:400-403 | `serial` is `ID.SerialNumber` of that Identity |
| `StrFile.StrFile.FramesViaMapper` | src/avaread/reader.py:396-413 | `len(file)` and `frames` are `preamble.frames` as the mapper gives it |
| `StrFile.StrFile.FrameIsSignalColumn` | src/avaread/reader.py:389-394 | `file[i]` for a valid i is column i of the corrected `signal` |
| `StrFile.StrFile.SignalAsWrittenFails` | src/avaread/reader.py:455-458 | `signal` as written raises ValueError whenever the window has several rows and the frame count is neither 1 nor the row count |
| `StrFile.ReadStrFile` | src/avaread/reader.py:345-372 | `STRFile` fails with AvaReadException exactly when the magic is not `STR`. A negative pixel count fails with OSError when the skip seeks before byte 0, and with ValueError otherwise. Every other file decodes to the preamble, the header, the three arrays and each frame's delay and column |
| `StrFile.ReadBody` | src/avaread/reader.py:364-372 | from the arrays on, the reader fills every field of the result from the file |
| `StrFile.ReadPixelArrays` | src/avaread/reader.py:364-366 | wavelength, dark and ref are read in that order from consecutive `pixels*8`-byte regions |
| `ReadFile.Prelude` | src/avaread/reader.py:472 | `fo.read(5)` is the first five bytes, or the whole file when it is shorter |
| `ReadFile.SequenceWidth` | src/avaread/reader.py:473 | a UTF-8 sequence is 1 to 4 bytes, and exactly 1 for an ASCII lead byte |
| `ReadFile.AsciiIsUtf8` | src/avaread/reader.py:473 | ASCII bytes always decode |
| `ReadFile.Utf8Concat` | src/avaread/reader.py:473 | concatenating two decodable byte strings gives a decodable one |
| `ReadFile.Upper` | src/avaread/reader.py:475 | `upper()` keeps the length and changes each byte on its own |
| `ReadFile.UpperMatches` | src/avaread/reader.py:475 | a tag upper-cases to a capital-letter name exactly when each of its bytes is that letter in either case |
| `ReadFile.StripLeadingSpaces` | src/avaread/reader.py:474 | `int()` strips only white space from the front |
| `ReadFile.StripTrailingSpaces` | src/avaread/reader.py:474 | `int()` strips only white space from the back |
| `ReadFile.DecimalValue` | src/avaread/reader.py:474 | d digits are worth less than 10^d |
| `ReadFile.PyInt` | src/avaread/reader.py:474 | a parsed version of a b-byte field lies strictly between -10^b and 10^b |
| `ReadFile.TwoDigitVersion` | src/avaread/reader.py:474 | two ASCII digits parse to their decimal value |
| `ReadFile.UnsignedDigits` | src/avaread/reader.py:474 | digit groups without sign or space parse to their decimal value |
| `ReadFile.NoDigitsNoNumber` | src/avaread/reader.py:474 | a version field without a digit raises ValueError |
| `ReadFile.ProbeAccepts` | src/avaread/reader.py:472-482 | `read_file` chooses a format exactly when the tag is that format's name in any letter case and the version parses to at least 80 (`version/10 >= 8`) |
| `ReadFile.UnknownTagRefused` | src/avaread/reader.py:483-484 | a decodable tag with a parsable version that names neither format raises AvaReadException |
| `ReadFile.ReadFile` | src/avaread/reader.py:461-484 | `read_file` raises what the probe raises; otherwise it returns the AVS or STR reader's result on the whole file, with the outcomes those readers promise. A successful STR probe yields an STR reader. An STR file with a negative pixel count fails with OSError when the skip seeks before byte 0, and with ValueError otherwise |
| `ReadFile.LowerCaseAvsTag` | src/avaread/reader.py:475 | a file starting `avs80` passes the case-insensitive probe, although its magic is not `AVS` (so `AVSFile` then refuses it) |

## Left out

- Path handling, the existence and directory checks and their FileNotFoundError, and the `name` properties (reader.py:305-308, 406-408, 466-470) are left out. This is file-system plumbing; a file is given by its contents.
- Floating-point values are not modelled. Samples are opaque 4- or 8-byte chunks, and the subtraction in `signal` and `__getitem__` is the parameter `sub`.
- The STR delay is kept as the raw signed `c_long`, without the division by 100.
- The version is modelled as the integer comparison with 80, not as the float `version / 10 < 8`. The two agree on every integer.
- `exposure` (`IntegrationTime`, a float) is left out for both formats. The AVS `pixels` property is `len(channel)`, which is `AvsChannel.Len`.
- `_extract_datetime` returns the unpacked tuple and checks the calendar rules `datetime` applies (years 1..9999, month lengths, leap years, hour < 24, minute < 60). It does not build a `datetime` object.
- Text decoding is modelled only partly:
  - UTF-8 is modelled only as far as `decode()` accepts or rejects the three tag bytes.
  - A tag that is not ASCII is treated as naming no format. Three decoded characters from three bytes are ASCII in any case.
  - `c_char` fields are read as ASCII text up to the first NUL. Non-ASCII bytes are dropped, as `errors="ignore"` drops undecodable ones; valid multi-byte UTF-8 inside a serial is not decoded.
- `int()` accepts only ASCII white space; Unicode white space and digits cannot occur in two bytes of ASCII.
- Short reads are not modelled. `readinto` and `np.fromfile` do not check lengths, so each reader requires that the stream holds what the file announces. For AVS this covers the blocks up to the first one whose payload does not reshape. A negative `np.fromfile` count, which reads the rest of the file, is modelled from a cursor inside the file. The `struct.unpack` calls on `fo.read(6)` (src/avaread/reader.py:358-360) and on `fo.read(sizeof(c_long))` (src/avaread/reader.py:371) do check lengths and raise `struct.error` on a short STR file; `StrFile.StrReadable` excludes that case, so this error path is not modelled.
- `ReadAvsFile` and `ReadStrFile` receive the bytes of the file. The second open of the file, made after the 5-byte probe, is the same data.
- numpy dtypes and `astype`, the `assert` on dtypes (reader.py:78-79), and reshaping beyond the 4-column table and the pixels×frames matrix are left out.
- Native byte order is taken to be little-endian.
- `sizeof(c_long)` is the parameter `long`, 4 or 8.
- `__repr__`, `StructMapping.print` (standard output) and `src/avaread/__init__.py` (re-exports only) are left out.
- `STRFile.__getattr__` and `AVSChannel.__getattr__` forwarding to the mapping are modelled only through the fields the readers use (`ID`, `Measurement`, `Misc`, `blockLength`).
- A numeric array's float elements stay uninterpreted bytes.

## Findings

| source | as written | input that shows it | evidently intended | confidence | as-written member | corrected member |
|---|---|---|---|---|---|---|
| src/avaread/reader.py:187 | `date` calls `_extract_datetime(self.Timestamp)`, but the header has no field `Timestamp`. The fields are `timestamp` and `Misc.file_datetime`, so the lookup raises AttributeError | any AVS channel, and so `AVSFile.date` on any file with a channel | decode the packed date in `Misc.file_datetime` (marked in AvaTypes.py:170 as the date that is not a `TimeStampType`) | not executed | `AvsChannel.DateAsWrittenFails` | `AvsChannel.Date` |
| src/avaread/reader.py:458 | `signal` subtracts `dark` (shape (k,)) from the k×F active window; numpy aligns the last axes, so it raises ValueError unless F == k, F == 1 or k == 1, and for F == k > 1 it subtracts along the wrong axis | an STR file with a 3-pixel window and 2 frames | subtract `dark[r]` from every frame of row r (`dark[:, None]`), which makes frame i of `signal` equal `file[i]` | not executed | `StrFile.StrFile.SignalAsWrittenFails` | `StrFile.StrFile.Signal` |
