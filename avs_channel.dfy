/** One channel block of an AVS file: a 322-byte header, four planes of float32 samples
    (wavelength, scope, dark, reference) and a 10-byte gap before the next block. */
module AvsChannel {
  import opened Wrappers
  import opened Bytes
  import opened AvaTypes
  import opened StructMapping
  import opened RecordFields
  import opened Timestamp
  import opened ByteStreams

  const HeaderSize: nat := 322
  /** `AVSChannel.PADDING`: bytes between the end of a block and the next block. */
  const Padding: nat := 10
  /** Width of one float32 sample. */
  const WordSize: nat := 4

  // ------------------------------------------------------------ header fields

  /** `header.blockLength`: c_uint16 at offset 0. */
  function BlockLength(h: seq<byte>): nat
    requires |h| == HeaderSize
  {
    U16At(h, 0)
  }

  /** `header.Measurement.StartPixel`: c_uint16 at 83 + 0. */
  function StartPixel(h: seq<byte>): nat
    requires |h| == HeaderSize
  {
    U16At(h, 83)
  }

  /** `header.Measurement.StopPixel`: c_uint16 at 83 + 2. */
  function StopPixel(h: seq<byte>): nat
    requires |h| == HeaderSize
  {
    U16At(h, 85)
  }

  /** The active pixel count: the pixel range is inclusive at both ends. */
  function ActivePixels(h: seq<byte>): int
    requires |h| == HeaderSize
  {
    StopPixel(h) - StartPixel(h) + 1
  }

  lemma {:induction false} BlockLengthViaMapper(h: seq<byte>)
    requires |h| == HeaderSize
    ensures Size(AvsInfoBlock) == HeaderSize
    ensures GetAttr(AvsInfoBlock, h, "blockLength") == Success(Plain(Int(BlockLength(h))))
  {
    assert FieldBytes(AvsInfoBlock, h, 0) == h[0..2];
    FieldNamed(AvsInfoBlock, 0);
    GetAttrPlain(AvsInfoBlock, h, "blockLength", 0);
  }

  /** `header.Measurement` maps the 41 bytes at offset 83. */
  lemma {:induction false} MeasurementViaMapper(h: seq<byte>)
    requires |h| == HeaderSize
    ensures Size(AvsInfoBlock) == HeaderSize && Size(MeasConfig) == 41
    ensures GetAttr(AvsInfoBlock, h, "Measurement") == Success(Mapping(MeasConfig, h[83..124]))
  {
    AvsInfoBlockHead();
    assert FieldBytes(AvsInfoBlock, h, 6) == h[83..124];
    var f := Fields(AvsInfoBlock)[6];
    assert f == Field("Measurement", Nested(MeasConfig));
    assert f.name !in EnumMap(AvsInfoBlock);
    FieldNamed(AvsInfoBlock, 6);
    GetAttrNested(AvsInfoBlock, h, f.name, 6);
  }

  /** The pixel range the decoder reads straight from the header is the one the field
      mapper gives as `Measurement.StartPixel` and `Measurement.StopPixel`. */
  lemma {:induction false} PixelRangeViaMapper(h: seq<byte>)
    requires |h| == HeaderSize
    ensures Size(MeasConfig) == 41
    ensures GetAttr(MeasConfig, h[83..124], "StartPixel") == Success(Plain(Int(StartPixel(h))))
    ensures GetAttr(MeasConfig, h[83..124], "StopPixel") == Success(Plain(Int(StopPixel(h))))
  {
    StartPixelField(h[83..124]);
    StopPixelField(h[83..124]);
    U16InSlice(h, 83, 124, 0);
    U16InSlice(h, 83, 124, 2);
  }

  /** `header.ID` maps the 75 bytes at offset 8. */
  lemma {:induction false} IdViaMapper(h: seq<byte>)
    requires |h| == HeaderSize
    ensures Size(AvsInfoBlock) == HeaderSize && Size(Identity) == 75
    ensures GetAttr(AvsInfoBlock, h, "ID") == Success(Mapping(Identity, h[8..83]))
  {
    var f := Fields(AvsInfoBlock)[5];
    assert f == Field("ID", Nested(Identity));
    AvsInfoBlockHead();
    assert FieldBytes(AvsInfoBlock, h, 5) == h[8..83];
    assert f.name !in EnumMap(AvsInfoBlock);
    FieldNamed(AvsInfoBlock, 5);
    GetAttrNested(AvsInfoBlock, h, f.name, 5);
  }

  /** `header.ID.SerialNumber` is the text of the c_char[10] at offset 8 + 0. */
  lemma {:induction false} SerialViaMapper(h: seq<byte>)
    requires |h| == HeaderSize
    ensures Size(Identity) == 75
    ensures GetAttr(Identity, h[8..83], "SerialNumber") == Success(Text(Serial(h)))
  {
    SerialNumberField(h[8..83]);
    SliceOfSlice(h, 8, 83, 0, SerialLength);
  }

  /** `header.Misc` maps the 24 bytes at offset 128. */
  lemma {:induction false} MiscViaMapper(h: seq<byte>)
    requires |h| == HeaderSize
    ensures Size(AvsInfoBlock) == HeaderSize && Size(MiscInfo) == 24
    ensures GetAttr(AvsInfoBlock, h, "Misc") == Success(Mapping(MiscInfo, h[128..152]))
  {
    var f := Fields(AvsInfoBlock)[8];
    assert f == Field("Misc", Nested(MiscInfo));
    AvsInfoBlockMisc();
    assert FieldBytes(AvsInfoBlock, h, 8) == h[128..152];
    assert f.name !in EnumMap(AvsInfoBlock);
    FieldNamed(AvsInfoBlock, 8);
    GetAttrNested(AvsInfoBlock, h, f.name, 8);
  }

  /** `header.Misc.file_datetime` is the c_uint32 at offset 128 + 0. */
  lemma {:induction false} FileDatetimeViaMapper(h: seq<byte>)
    requires |h| == HeaderSize
    ensures Size(MiscInfo) == 24
    ensures GetAttr(MiscInfo, h[128..152], "file_datetime") == Success(Plain(Int(FileDatetime(h))))
  {
    FileDatetimeField(h[128..152]);
    U32InSlice(h, 128, 152, 0);
  }

  /** The header has a `timestamp` field but no `Timestamp`: attribute names are case
      sensitive, so the lookup `date` makes raises AttributeError whatever the header holds. */
  lemma {:induction false} NoTimestampAttribute(h: seq<byte>)
    requires |h| == HeaderSize
    ensures Size(AvsInfoBlock) == HeaderSize
    ensures GetAttr(AvsInfoBlock, h, "Timestamp") == Failure(AttributeError)
  {
    NoTimestampField();
  }

  /** No field of the header is called `Timestamp`. */
  lemma NoTimestampField()
    ensures FieldIndex(Fields(AvsInfoBlock), "Timestamp") == None
  {
    var fs := AvsInfoBlockFields;
    var names := seq(|fs|, i requires 0 <= i < |fs| => fs[i].name);
    assert "Timestamp" !in names;
    assert forall i :: 0 <= i < |fs| ==> fs[i].name == names[i];
  }

  // ------------------------------------------------------------ header-derived values

  /** `ID.SerialNumber`: the c_char[10] at offset 8 + 0. */
  function Serial(h: seq<byte>): string
    requires |h| == HeaderSize
  {
    AsciiText(h[8..18])
  }

  /** `Misc.file_datetime`: the c_uint32 at offset 128 + 0. */
  function FileDatetime(h: seq<byte>): nat
    requires |h| == HeaderSize
  {
    U32At(h, 128)
  }

  // ------------------------------------------------------------ payload

  /** Every row of the table holds one entry per plane. */
  predicate Rectangular<T>(t: seq<seq<T>>) {
    forall p :: 0 <= p < |t| ==> |t[p]| == 4
  }

  /** `reshape(4, -1).T` of 4n words: the words form four consecutive planes of n, and row p
      of the result takes the p-th word of each plane. */
  function Deinterleave<T>(words: seq<T>, n: nat): (t: seq<seq<T>>)
    requires |words| == 4 * n
    ensures |t| == n && Rectangular(t)
  {
    seq(n, p requires 0 <= p < n => [words[p], words[n + p], words[2 * n + p], words[3 * n + p]])
  }

  /** `table[:, c]`. */
  function Column<T>(t: seq<seq<T>>, c: nat): (col: seq<T>)
    requires Rectangular(t) && c < 4
    ensures |col| == |t|
    ensures forall p :: 0 <= p < |t| ==> col[p] == t[p][c]
  {
    seq(|t|, p requires 0 <= p < |t| => t[p][c])
  }

  /** The inverse of the transposed reshape: the four columns one after the other. */
  function Interleave<T>(t: seq<seq<T>>): (words: seq<T>)
    requires Rectangular(t)
    ensures |words| == 4 * |t|
  {
    Column(t, 0) + Column(t, 1) + Column(t, 2) + Column(t, 3)
  }

  /** Row p, column c of the table is flat word c*n + p: column c is plane c. */
  lemma {:induction false} PlaneMajor<T>(words: seq<T>, n: nat, c: nat)
    requires |words| == 4 * n && c < 4
    ensures forall p :: 0 <= p < n ==> Deinterleave(words, n)[p][c] == words[c * n + p]
    ensures Column(Deinterleave(words, n), c) == words[c * n..(c + 1) * n]
  {
    var t := Deinterleave(words, n);
    forall p | 0 <= p < n
      ensures t[p][c] == words[c * n + p]
    {
      assert t[p] == [words[p], words[n + p], words[2 * n + p], words[3 * n + p]];
    }
  }

  /** Re-interleaving the de-interleaved words gives them back. */
  lemma {:induction false} InterleaveDeinterleave<T>(words: seq<T>, n: nat)
    requires |words| == 4 * n
    ensures Interleave(Deinterleave(words, n)) == words
  {
    var t := Deinterleave(words, n);
    PlaneMajor(words, n, 0);
    PlaneMajor(words, n, 1);
    PlaneMajor(words, n, 2);
    PlaneMajor(words, n, 3);
    FourPlanes(words, n);
  }

  /** The four planes of n words, one after the other, are the words. */
  lemma {:induction false} FourPlanes<T>(words: seq<T>, n: nat)
    requires |words| == 4 * n
    ensures words[0 * n..1 * n] + words[1 * n..2 * n] + words[2 * n..3 * n] + words[3 * n..4 * n] == words
  {
    assert words[..n] + words[n..2 * n] == words[..2 * n];
    assert words[..2 * n] + words[2 * n..3 * n] == words[..3 * n];
    assert words[..3 * n] + words[3 * n..] == words;
  }

  /** De-interleaving the interleaved table gives it back: no entry is lost or moved. */
  lemma {:induction false} DeinterleaveInterleave<T>(t: seq<seq<T>>)
    requires Rectangular(t)
    ensures Deinterleave(Interleave(t), |t|) == t
  {
    var n := |t|;
    var w := Interleave(t);
    var d := Deinterleave(w, n);
    forall p | 0 <= p < n
      ensures d[p] == t[p]
    {
      assert w[p] == t[p][0];
      assert w[n + p] == t[p][1];
      assert w[2 * n + p] == t[p][2];
      assert w[3 * n + p] == t[p][3];
    }
  }

  // ------------------------------------------------------------ channels

  /** `AVSChannel`: the raw header and the n x 4 sample table. */
  datatype Channel = Channel(header: seq<byte>, table: seq<seq<Chunk>>)

  /** The shape `from_buffer` produces: a full header, four columns, and one row per
      active pixel whenever the header's pixel range is not negative. */
  predicate Valid(ch: Channel) {
    |ch.header| == HeaderSize && Rectangular(ch.table)
    && (ActivePixels(ch.header) >= 0 ==> |ch.table| == ActivePixels(ch.header))
  }

  /** `len(channel)` and `channel.pixels`: the active pixel count of the header, which
      Python's `len` refuses with ValueError when it is negative. */
  function Len(ch: Channel): (r: Result<nat, Exception>)
    requires |ch.header| == HeaderSize
    ensures r.Success? <==> StartPixel(ch.header) <= StopPixel(ch.header) + 1
    ensures r.Failure? ==> r.error == ValueError
    ensures r.Success? ==> StartPixel(ch.header) + r.value == StopPixel(ch.header) + 1
    ensures r.Success? && Valid(ch) ==> r.value == |ch.table|
  {
    var n := ActivePixels(ch.header);
    if n >= 0 then Success(n) else Failure(ValueError)
  }

  /** `wavelength`, `scope`, `dark` and `ref`: columns 0 to 3 of the table. */
  function Wavelength(ch: Channel): seq<Chunk>
    requires Valid(ch)
  {
    Column(ch.table, 0)
  }

  function Scope(ch: Channel): seq<Chunk>
    requires Valid(ch)
  {
    Column(ch.table, 1)
  }

  function Dark(ch: Channel): seq<Chunk>
    requires Valid(ch)
  {
    Column(ch.table, 2)
  }

  function Ref(ch: Channel): seq<Chunk>
    requires Valid(ch)
  {
    Column(ch.table, 3)
  }

  /** `signal = scope - dark`, with the float subtraction a parameter. */
  function Signal(ch: Channel, sub: (Chunk, Chunk) -> Chunk): (r: seq<Chunk>)
    requires Valid(ch)
    ensures |r| == |ch.table|
    ensures forall p :: 0 <= p < |r| ==> r[p] == sub(ch.table[p][1], ch.table[p][2])
  {
    var scope, dark := Scope(ch), Dark(ch);
    seq(|scope|, p requires 0 <= p < |scope| => sub(scope[p], dark[p]))
  }

  /** `channel.date` as written: it looks up `Timestamp`, which the header does not have. */
  function DateAsWritten(ch: Channel): Result<DateTime, Exception>
    requires |ch.header| == HeaderSize
  {
    match GetAttr(AvsInfoBlock, ch.header, "Timestamp")
    case Failure(e) => Failure(e)
    case Success(v) => if v.Plain? && v.number.Int? && v.number.i >= 0
      then ExtractDatetime(v.number.i) else Failure(ValueError)
  }

  /** Whatever the header, the date as written raises AttributeError. */
  lemma {:induction false} DateAsWrittenFails(ch: Channel)
    requires |ch.header| == HeaderSize
    ensures DateAsWritten(ch) == Failure(AttributeError)
  {
    NoTimestampAttribute(ch.header);
  }

  /** The date the property evidently means: the packed `Misc.file_datetime`. */
  function Date(ch: Channel): (r: Result<DateTime, Exception>)
    requires |ch.header| == HeaderSize
    ensures r.Success? <==> ValidDate(Unpack(FileDatetime(ch.header)))
    ensures r.Success? ==> Pack(r.value) == FileDatetime(ch.header)
  {
    ExtractDatetime(FileDatetime(ch.header))
  }

  // ------------------------------------------------------------ reading a block

  /** How many float32 words `np.fromfile` returns for the block at `start`: four per
      active pixel, and for a negative pixel count every whole word left in the file. */
  function PayloadWords(data: seq<byte>, start: nat): nat
    requires start + HeaderSize <= |data|
  {
    var n := ActivePixels(data[start..start + HeaderSize]);
    if n >= 0 then 4 * n else (|data| - (start + HeaderSize)) / WordSize
  }

  /** The block at `start` lies inside the file: its header, and the payload words after it. */
  predicate BlockReadable(data: seq<byte>, start: nat) {
    start + HeaderSize <= |data|
    && start + HeaderSize + PayloadWords(data, start) * WordSize <= |data|
  }

  /** `reshape(4, -1)` accepts the payload: its words split into four equal planes. */
  predicate Reshapes(data: seq<byte>, start: nat)
    requires start + HeaderSize <= |data|
  {
    PayloadWords(data, start) % 4 == 0
  }

  /** The channel `from_buffer` decodes from the block at `start`: one row per active
      pixel, or for a negative pixel count one row per four words left in the file. */
  function BlockAt(data: seq<byte>, start: nat): (ch: Channel)
    requires BlockReadable(data, start) && Reshapes(data, start)
    ensures Valid(ch) && ch.header == data[start..start + HeaderSize]
    ensures ActivePixels(ch.header) < 0 ==>
      |ch.table| == (|data| - (start + HeaderSize)) / WordSize / 4
  {
    var h := data[start..start + HeaderSize];
    var rows := PayloadWords(data, start) / 4;
    var payload := start + HeaderSize;
    Channel(h, Deinterleave(Chunks(data[payload..payload + 4 * rows * WordSize], 4 * rows, WordSize), rows))
  }

  /** Where the cursor goes after the block at `start`: the header's block length plus the
      gap, counted from the block start, whatever the payload size. */
  function NextBlock(data: seq<byte>, start: nat): (next: nat)
    requires start + HeaderSize <= |data|
    ensures next >= start + Padding
  {
    start + BlockLength(data[start..start + HeaderSize]) + Padding
  }

  /** The decoded table is the payload's four planes: row p, column c is word c*n + p. */
  lemma {:induction false} BlockPlanes(data: seq<byte>, start: nat, p: nat, c: nat)
    requires BlockReadable(data, start) && Reshapes(data, start)
    requires p < |BlockAt(data, start).table| && c < 4
    ensures var at := start + HeaderSize + (c * |BlockAt(data, start).table| + p) * WordSize;
      at + WordSize <= |data| && BlockAt(data, start).table[p][c] == data[at..at + WordSize]
  {
    var rows := PayloadWords(data, start) / 4;
    PayloadWord(data, start + HeaderSize, rows, p, c);
  }

  /** Row p, column c of the table de-interleaved from the payload at `payload` is the
      word at index c * n + p of the payload. */
  lemma {:induction false} PayloadWord(data: seq<byte>, payload: nat, n: nat, p: nat, c: nat)
    requires payload + 4 * n * WordSize <= |data| && p < n && c < 4
    ensures var at := payload + (c * n + p) * WordSize;
      at + WordSize <= |data|
      && Deinterleave(Chunks(data[payload..payload + 4 * n * WordSize], 4 * n, WordSize), n)[p][c]
         == data[at..at + WordSize]
  {
    var words := Chunks(data[payload..payload + 4 * n * WordSize], 4 * n, WordSize);
    var k := c * n + p;
    PlaneIndex(n, p, c);
    PlaneMajor(words, n, c);
    assert Deinterleave(words, n)[p][c] == words[k];
    ChunkInData(data, payload, 4 * n, WordSize, k);
    assert (k + 1) * WordSize == k * WordSize + WordSize;
  }

  /** Word c * n + p lies in the payload of four planes of n words. */
  lemma PlaneIndex(n: nat, p: nat, c: nat)
    requires p < n && c < 4
    ensures c * n + p < 4 * n
  {
    assert c * n <= 3 * n;
  }

  /** The words `np.fromfile` returns after the header at `start` are the block's payload:
      they reshape exactly when the block does, and then give the channel of the block. */
  lemma {:induction false} PayloadRead(data: seq<byte>, start: nat, words: seq<Chunk>)
    requires BlockReadable(data, start)
    requires var h := data[start..start + HeaderSize]; var n := StopPixel(h) - StartPixel(h) + 1;
      |words| == if n >= 0 then 4 * n else (|data| - (start + HeaderSize)) / WordSize
    requires var payload := start + HeaderSize;
      payload + |words| * WordSize <= |data|
      && words == Chunks(data[payload..payload + |words| * WordSize], |words|, WordSize)
    ensures |words| % 4 == 0 <==> Reshapes(data, start)
    ensures |words| % 4 != 0 <==> (ActivePixels(data[start..start + HeaderSize]) < 0
      && ((|data| - (start + HeaderSize)) / WordSize) % 4 != 0)
    ensures |words| % 4 == 0 ==>
      Channel(data[start..start + HeaderSize], Deinterleave(words, |words| / 4)) == BlockAt(data, start)
  {
    assert |words| == PayloadWords(data, start);
  }

  /** `AVSChannel.from_buffer(buffer, offset)`: the block is read at the cursor plus
      `offset`; a payload `reshape(4, -1)` cannot split into four planes raises ValueError,
      which only a negative pixel count, reading the rest of the file, can cause. Otherwise
      the cursor is left at the block length plus the gap past the old cursor, not past the
      header. */
  method ReadChannel(s: ByteStream, offset: nat) returns (r: Result<Channel, Exception>)
    requires BlockReadable(s.data, s.pos + offset)
    modifies s
    ensures var start := old(s.pos) + offset;
      r.Failure? <==> (ActivePixels(s.data[start..start + HeaderSize]) < 0
        && ((|s.data| - (start + HeaderSize)) / WordSize) % 4 != 0)
    ensures r.Failure? <==> !Reshapes(s.data, old(s.pos) + offset)
    ensures r.Failure? ==> r.error == ValueError
    ensures r.Success? ==> (r.value == BlockAt(s.data, old(s.pos) + offset)
      && s.pos == old(s.pos) + BlockLength(r.value.header) + Padding)
  {
    var startBlock := s.Tell();
    s.SeekRelative(offset);
    var header := s.Read(HeaderSize);
    var n := StopPixel(header) - StartPixel(header) + 1;
    var words := s.FromFile(4 * n, WordSize);
    PayloadRead(s.data, startBlock + offset, words);
    if |words| % 4 != 0 {
      return Failure(ValueError);
    }
    r := Success(Channel(header, Deinterleave(words, |words| / 4)));
    s.Seek(startBlock + BlockLength(header) + Padding);
  }
}
