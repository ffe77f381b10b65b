/** Store-to-RAM (STR) files: a 7-byte preamble (magic "STR", version, frame count), a
    329-byte header, reserved space up to byte 10000, a 6-byte block carrying the sensor's
    pixel count, then per-pixel arrays and one record per frame. */
module StrFile {
  import opened Wrappers
  import opened Bytes
  import opened AvaTypes
  import opened StructMapping
  import opened RecordFields
  import opened ByteStreams

  const StrPreambleSize: nat := 7
  const StrHeaderSize: nat := 329
  /** The magic bytes "STR". */
  const StrMagic: seq<byte> := [0x53, 0x54, 0x52]
  /** `fo.seek(10000)`: where the pixel-count block sits. */
  const PixelBlockAt: nat := 10000
  /** The `<hbhb` block: pixels, a byte, pixels again, a byte. */
  const PixelBlockSize: nat := 6
  /** `sizeof(c_double)`. */
  const SampleSize: nat := 8
  /** A double 0.0, the value `np.zeros` fills with. */
  const Zero: Chunk := [0, 0, 0, 0, 0, 0, 0, 0]

  /** `sizeof(c_long)` of the platform reading the file: 4 on Windows, 8 on 64-bit Linux. */
  datatype CLong = Long4 | Long8
  {
    function Size(): nat {
      match this
      case Long4 => 4
      case Long8 => 8
    }
  }

  /** The preamble and header end well before the fixed seek target. */
  lemma HeadersFit()
    ensures End(StrPreamble) == StrPreambleSize && End(StrInfoBlock) == StrHeaderSize
    ensures StrPreambleSize + StrHeaderSize == 336 < PixelBlockAt
  {
    PreambleLayouts();
    StrInfoBlockLayout();
  }

  // ------------------------------------------------------------ stream layout

  /** `preamble.frames`: the c_uint16 at offset 5. */
  function FrameCount(pre: seq<byte>): nat
    requires |pre| == StrPreambleSize
  {
    U16At(pre, 5)
  }

  /** The first, signed 16-bit, item of the `<hbhb` block at byte 10000. */
  function PixelCount(data: seq<byte>): int
    requires |data| >= PixelBlockAt + PixelBlockSize
  {
    SignedLittleEndian(data[PixelBlockAt..PixelBlockAt + 2])
  }

  /** Where the wavelength array starts: past the pixel block and `pixels` skipped doubles. */
  function ArraysStart(p: nat): nat {
    PixelBlockAt + PixelBlockSize + p * SampleSize
  }

  /** Where the first frame starts: past the wavelength, dark and reference arrays. */
  function FramesStart(p: nat): nat {
    ArraysStart(p) + 3 * (p * SampleSize)
  }

  /** The bytes one frame takes: a c_long delay and `p` doubles. */
  function Stride(p: nat, long: CLong): nat {
    long.Size() + p * SampleSize
  }

  /** The file holds everything the decoder reads: the pixel block, and for a non-negative
      pixel count the three arrays and every frame. */
  predicate StrReadable(data: seq<byte>, long: CLong) {
    |data| >= PixelBlockAt + PixelBlockSize
    && (PixelCount(data) >= 0 ==>
      var p := PixelCount(data) as nat;
      FramesFit(|data|, FramesStart(p), p, long, FrameCount(data[..StrPreambleSize])))
  }

  /** `p` doubles read at `at`, as opaque chunks. */
  function Samples(data: seq<byte>, at: nat, p: nat): (r: seq<Chunk>)
    requires at + p * SampleSize <= |data|
    ensures |r| == p
  {
    Chunks(data[at..at + p * SampleSize], p, SampleSize)
  }

  /** `frames` records of `Stride(p, long)` bytes fit in `size` bytes from `base`. */
  predicate FramesFit(size: nat, base: nat, p: nat, long: CLong, frames: nat) {
    base + frames * Stride(p, long) <= size
  }

  /** Frame i lies inside the file when all the frames do. */
  lemma {:induction false} FrameWithin(size: nat, base: nat, p: nat, long: CLong, frames: nat, i: nat)
    requires i < frames && FramesFit(size, base, p, long, frames)
    ensures base + i * Stride(p, long) + Stride(p, long) <= size
  {
    var stride := Stride(p, long);
    assert i * stride + stride == (i + 1) * stride <= frames * stride;
  }

  /** The three arrays lie inside a readable file. */
  lemma {:induction false} ArraysFit(data: seq<byte>, long: CLong)
    requires StrReadable(data, long) && PixelCount(data) >= 0
    ensures FramesStart(PixelCount(data) as nat) <= |data|
  {
    var p := PixelCount(data) as nat;
    FramesBegin(|data|, FramesStart(p), p, long, FrameCount(data[..StrPreambleSize]));
  }

  /** Frames that fit in the file begin inside it. */
  lemma {:induction false} FramesBegin(size: nat, base: nat, p: nat, long: CLong, frames: nat)
    requires FramesFit(size, base, p, long, frames)
    ensures base <= size
  {
    assert frames * Stride(p, long) >= 0;
  }

  /** Array k of the three per-pixel arrays (0 wavelength, 1 dark, 2 reference). */
  function PixelArray(data: seq<byte>, long: CLong, k: nat): (r: seq<Chunk>)
    requires StrReadable(data, long) && PixelCount(data) >= 0 && k < 3
    ensures |r| == PixelCount(data)
  {
    var p := PixelCount(data) as nat;
    var n := p * SampleSize;
    ArraysFit(data, long);
    var at := if k == 0 then ArraysStart(p) else if k == 1 then ArraysStart(p) + n else ArraysStart(p) + 2 * n;
    Samples(data, at, p)
  }

  /** Frame i's raw delay: the signed c_long at the head of the frame. */
  function FrameDelay(data: seq<byte>, base: nat, p: nat, long: CLong, frames: nat, i: nat): int
    requires i < frames && FramesFit(|data|, base, p, long, frames)
  {
    FrameWithin(|data|, base, p, long, frames, i);
    var at := base + i * Stride(p, long);
    SignedLittleEndian(data[at..at + long.Size()])
  }

  /** Frame i's sample for pixel q. */
  function FrameSample(data: seq<byte>, base: nat, p: nat, long: CLong, frames: nat, i: nat, q: nat): Chunk
    requires q < p && i < frames && FramesFit(|data|, base, p, long, frames)
  {
    FrameWithin(|data|, base, p, long, frames, i);
    var at := base + i * Stride(p, long) + long.Size() + q * SampleSize;
    data[at..at + SampleSize]
  }

  /** The samples of frame i, read as one run of p chunks after its delay. */
  lemma {:induction false} FrameColumn(data: seq<byte>, base: nat, p: nat, long: CLong, frames: nat, i: nat)
    requires i < frames && FramesFit(|data|, base, p, long, frames)
    ensures var at := base + i * Stride(p, long) + long.Size();
      at + p * SampleSize <= |data|
      && forall q :: 0 <= q < p ==>
        Chunks(data[at..at + p * SampleSize], p, SampleSize)[q] == FrameSample(data, base, p, long, frames, i, q)
  {
    FrameWithin(|data|, base, p, long, frames, i);
    var at := base + i * Stride(p, long) + long.Size();
    forall q | 0 <= q < p
      ensures Chunks(data[at..at + p * SampleSize], p, SampleSize)[q] == FrameSample(data, base, p, long, frames, i, q)
    {
      ChunkInData(data, at, p, SampleSize, q);
    }
  }

  // ------------------------------------------------------------ numpy's subtraction

  /** numpy's `m - v` for an array m of k rows and f columns and a vector of n: the trailing
      axes f and n must be equal or one of them 1 (ValueError otherwise), and the result has
      k rows of the broadcast width, pairing column c with element c of the vector. */
  function BroadcastSubtract(m: seq<seq<Chunk>>, f: nat, v: seq<Chunk>, sub: (Chunk, Chunk) -> Chunk)
    : Result<seq<seq<Chunk>>, Exception>
    requires forall r :: 0 <= r < |m| ==> |m[r]| == f
  {
    var n := |v|;
    if f != n && f != 1 && n != 1 then Failure(ValueError)
    else
      var w := if f == 1 then n else f;
      Success(seq(|m|, r requires 0 <= r < |m| =>
        seq(w, c requires 0 <= c < w => sub(m[r][if f == 1 then 0 else c], v[if n == 1 then 0 else c]))))
  }

  /** Row-wise subtraction: every entry of row r loses element r of the vector. */
  function SubtractRows(m: seq<seq<Chunk>>, v: seq<Chunk>, sub: (Chunk, Chunk) -> Chunk)
    : (d: seq<seq<Chunk>>)
    requires |v| == |m|
    ensures |d| == |m|
    ensures forall r :: 0 <= r < |m| ==> |d[r]| == |m[r]|
    ensures forall r, c :: 0 <= r < |m| && 0 <= c < |m[r]| ==> d[r][c] == sub(m[r][c], v[r])
  {
    seq(|m|, r requires 0 <= r < |m| => seq(|m[r]|, c requires 0 <= c < |m[r]| => sub(m[r][c], v[r])))
  }

  /** With one vector entry per row, numpy accepts the subtraction only when the column
      count equals the row count, or either is 1. */
  lemma {:induction false} BroadcastAccepts(m: seq<seq<Chunk>>, f: nat, v: seq<Chunk>, sub: (Chunk, Chunk) -> Chunk)
    requires forall r :: 0 <= r < |m| ==> |m[r]| == f
    requires |v| == |m|
    ensures BroadcastSubtract(m, f, v, sub).Success? <==> f == |m| || f == 1 || |m| == 1
    ensures BroadcastSubtract(m, f, v, sub).Failure? ==>
      BroadcastSubtract(m, f, v, sub).error == ValueError
  {
  }

  /** Where numpy accepts a square array, it pairs column c with vector entry c, so it
      agrees with the row-wise subtraction only where those entries coincide. */
  lemma {:induction false} BroadcastSquare(m: seq<seq<Chunk>>, v: seq<Chunk>, sub: (Chunk, Chunk) -> Chunk, r: nat, c: nat)
    requires forall i :: 0 <= i < |m| ==> |m[i]| == |m|
    requires |v| == |m| && |m| > 1 && r < |m| && c < |m|
    ensures BroadcastSubtract(m, |m|, v, sub).Success?
    ensures BroadcastSubtract(m, |m|, v, sub).value[r][c] == sub(m[r][c], v[c])
    ensures SubtractRows(m, v, sub)[r][c] == sub(m[r][c], v[r])
  {
  }

  /** Three active pixels and two frames: numpy raises ValueError. */
  lemma {:induction false} BroadcastCounterexample(sub: (Chunk, Chunk) -> Chunk)
    ensures BroadcastSubtract([[Zero, Zero], [Zero, Zero], [Zero, Zero]], 2, [Zero, Zero, Zero], sub)
      == Failure(ValueError)
    ensures |SubtractRows([[Zero, Zero], [Zero, Zero], [Zero, Zero]], [Zero, Zero, Zero], sub)| == 3
  {
  }

  // ------------------------------------------------------------ the file object

  /** `STRFile`: the raw preamble and header, the sensor's pixel count, the three per-pixel
      arrays, and the delay and sample arrays the frame loop fills. */
  class StrFile {
    const preamble: seq<byte>
    const header: seq<byte>
    const sensorPixels: nat
    const wavelength: seq<Chunk>
    const dark: seq<Chunk>
    const reference: seq<Chunk>
    /** `delay[i]`, kept as the raw integer (the source divides it by 100). */
    const delay: array<int>
    /** `data[q, i]`: pixel q of frame i. */
    const data: array2<Chunk>

    /** The shapes the reader sets up. */
    predicate Valid()
      reads this
    {
      |preamble| == StrPreambleSize && |header| == StrHeaderSize
      && |wavelength| == sensorPixels && |dark| == sensorPixels && |reference| == sensorPixels
      && delay.Length == FrameCount(preamble)
      && data.Length0 == sensorPixels && data.Length1 == FrameCount(preamble)
    }

    /** The state after the three arrays are read: `np.zeros` delays and samples. */
    constructor (preamble: seq<byte>, header: seq<byte>, sensorPixels: nat,
                 wavelength: seq<Chunk>, dark: seq<Chunk>, reference: seq<Chunk>)
      requires |preamble| == StrPreambleSize && |header| == StrHeaderSize
      requires |wavelength| == sensorPixels && |dark| == sensorPixels && |reference| == sensorPixels
      ensures Valid() && fresh(delay) && fresh(data)
      ensures this.preamble == preamble && this.header == header && this.sensorPixels == sensorPixels
      ensures this.wavelength == wavelength && this.dark == dark && this.reference == reference
      ensures forall i :: 0 <= i < delay.Length ==> delay[i] == 0
      ensures forall q, i :: 0 <= q < data.Length0 && 0 <= i < data.Length1 ==> data[q, i] == Zero
    {
      this.preamble := preamble;
      this.header := header;
      this.sensorPixels := sensorPixels;
      this.wavelength := wavelength;
      this.dark := dark;
      this.reference := reference;
      delay := new int[FrameCount(preamble)](_ => 0);
      data := new Chunk[sensorPixels, FrameCount(preamble)]((_, _) => Zero);
    }

    /** One pass of the frame loop: a c_long delay stored in `delay[i]`, then one double
        per sensor pixel stored in column i of `data`; no other entry changes. */
    method ReadFrame(s: ByteStream, long: CLong, base: nat, i: nat)
      requires Valid() && i < FrameCount(preamble)
      requires FramesFit(|s.data|, base, sensorPixels, long, FrameCount(preamble))
      requires s.pos == base + i * Stride(sensorPixels, long)
      modifies s, delay, data
      ensures s.pos == old(s.pos) + Stride(sensorPixels, long)
      ensures delay[i] == FrameDelay(s.data, base, sensorPixels, long, FrameCount(preamble), i)
      ensures forall q :: 0 <= q < sensorPixels ==>
        data[q, i] == FrameSample(s.data, base, sensorPixels, long, FrameCount(preamble), i, q)
      ensures forall j :: 0 <= j < delay.Length && j != i ==> delay[j] == old(delay[j])
      ensures forall q, j :: 0 <= q < data.Length0 && 0 <= j < data.Length1 && j != i ==>
        data[q, j] == old(data[q, j])
    {
      var p, frames := sensorPixels, FrameCount(preamble);
      FrameWithin(|s.data|, base, p, long, frames, i);
      var word := s.Read(long.Size());
      delay[i] := SignedLittleEndian(word);
      FrameColumn(s.data, base, p, long, frames, i);
      var column := s.FromFile(p, SampleSize);
      forall q | 0 <= q < p {
        data[q, i] := column[q];
      }
    }

    /** The frame loop `for i in range(preamble.frames)`: frame i fills `delay[i]` and
        column i of `data`, and the cursor ends one stride per frame further on. */
    method ReadFrames(s: ByteStream, long: CLong)
      requires Valid()
      requires FramesFit(|s.data|, s.pos, sensorPixels, long, FrameCount(preamble))
      modifies s, delay, data
      ensures s.pos == old(s.pos) + FrameCount(preamble) * Stride(sensorPixels, long)
      ensures forall i :: 0 <= i < delay.Length ==>
        delay[i] == FrameDelay(s.data, old(s.pos), sensorPixels, long, delay.Length, i)
      ensures forall q, i :: 0 <= q < data.Length0 && 0 <= i < data.Length1 ==>
        data[q, i] == FrameSample(s.data, old(s.pos), sensorPixels, long, data.Length1, i, q)
    {
      var frames, p := FrameCount(preamble), sensorPixels;
      var stride := Stride(p, long);
      var base := s.pos;
      var i := 0;
      while i < frames
        invariant i <= frames && s.pos == base + i * stride
        invariant forall j :: 0 <= j < i ==> delay[j] == FrameDelay(s.data, base, p, long, frames, j)
        invariant forall q, j :: 0 <= q < p && 0 <= j < i ==>
          data[q, j] == FrameSample(s.data, base, p, long, frames, j, q)
      {
        ReadFrame(s, long, base, i);
        assert base + i * stride + stride == base + (i + 1) * stride;
        i := i + 1;
      }
    }

    // ---------------------------------------------------------- properties

    /** `Measurement.StartPixel` and `Measurement.StopPixel`: the c_uint16s at 80 + 0 and
        80 + 2. */
    function Start(): nat
      requires Valid()
      reads this
    {
      U16At(header, 80)
    }

    function Stop(): nat
      requires Valid()
      reads this
    {
      U16At(header, 82)
    }

    /** `pixels`: the active range is half-open, so no `+ 1` here. */
    function ActivePixels(): int
      requires Valid()
      reads this
    {
      Stop() - Start()
    }

    /** `len(file)` and `frames`. */
    function Frames(): nat
      requires Valid()
      reads this
    {
      FrameCount(preamble)
    }

    /** `serial`: `ID.SerialNumber`, the c_char[10] at 5 + 0. */
    function Serial(): string
      requires Valid()
      reads this
    {
      AsciiText(header[5..5 + SerialLength])
    }

    /** `header.Measurement` maps the 41 bytes at offset 80. */
    lemma {:induction false} MeasurementViaMapper()
      requires Valid()
      ensures Size(StrInfoBlock) == StrHeaderSize && Size(MeasConfig) == 41
      ensures GetAttr(StrInfoBlock, header, "Measurement") == Success(Mapping(MeasConfig, header[80..121]))
    {
      var f := Fields(StrInfoBlock)[2];
      assert f == Field("Measurement", Nested(MeasConfig));
      StrInfoBlockLayout();
      assert FieldBytes(StrInfoBlock, header, 2) == header[80..121];
      assert f.name !in EnumMap(StrInfoBlock);
      FieldNamed(StrInfoBlock, 2);
      GetAttrNested(StrInfoBlock, header, f.name, 2);
    }

    /** The window `Start` and `Stop` read straight from the header is the one the field
        mapper gives as `Measurement.StartPixel` and `Measurement.StopPixel`, so `pixels` is
        their difference. */
    lemma {:induction false} PixelRangeViaMapper()
      requires Valid()
      ensures Size(MeasConfig) == 41
      ensures GetAttr(MeasConfig, header[80..121], "StartPixel") == Success(Plain(Int(Start())))
      ensures GetAttr(MeasConfig, header[80..121], "StopPixel") == Success(Plain(Int(Stop())))
      ensures ActivePixels() == Stop() - Start()
    {
      StartPixelField(header[80..121]);
      StopPixelField(header[80..121]);
      U16InSlice(header, 80, 121, 0);
      U16InSlice(header, 80, 121, 2);
    }

    /** `header.ID` maps the 75 bytes at offset 5. */
    lemma {:induction false} IdViaMapper()
      requires Valid()
      ensures Size(StrInfoBlock) == StrHeaderSize && Size(Identity) == 75
      ensures GetAttr(StrInfoBlock, header, "ID") == Success(Mapping(Identity, header[5..80]))
    {
      var f := Fields(StrInfoBlock)[1];
      assert f == Field("ID", Nested(Identity));
      StrInfoBlockLayout();
      assert FieldBytes(StrInfoBlock, header, 1) == header[5..80];
      assert f.name !in EnumMap(StrInfoBlock);
      FieldNamed(StrInfoBlock, 1);
      GetAttrNested(StrInfoBlock, header, f.name, 1);
    }

    /** `serial` is the text the field mapper gives as `ID.SerialNumber`. */
    lemma {:induction false} SerialViaMapper()
      requires Valid()
      ensures Size(Identity) == 75
      ensures GetAttr(Identity, header[5..80], "SerialNumber") == Success(Text(Serial()))
    {
      SerialNumberField(header[5..80]);
      SliceOfSlice(header, 5, 80, 0, SerialLength);
    }

    /** `frames` is the count the field mapper gives as `preamble.frames`. */
    lemma {:induction false} FramesViaMapper()
      requires Valid()
      ensures Size(StrPreamble) == StrPreambleSize
      ensures GetAttr(StrPreamble, preamble, "frames") == Success(Plain(Int(Frames())))
    {
      var f := Fields(StrPreamble)[2];
      assert f == Field("frames", Scalar(UInt16));
      PreambleLayouts();
      assert FieldBytes(StrPreamble, preamble, 2) == preamble[5..7];
      assert f.name !in EnumMap(StrPreamble);
      FieldNamed(StrPreamble, 2);
      GetAttrPlain(StrPreamble, preamble, f.name, 2);
    }

    /** The number of rows `[StartPixel:StopPixel]` keeps of the sensor's pixels. */
    function WindowLength(): (k: nat)
      requires Valid()
      reads this
      ensures Start() + k <= sensorPixels || k == 0
    {
      if Start() < Stop() && Start() < sensorPixels then Min(Stop(), sensorPixels) - Start() else 0
    }

    /** `wavelength`, `dark` and `ref`: the arrays sliced to the active window. */
    function Wavelength(): seq<Chunk>
      requires Valid()
      reads this
    {
      PySlice(wavelength, Start(), Stop())
    }

    function Dark(): seq<Chunk>
      requires Valid()
      reads this
    {
      PySlice(dark, Start(), Stop())
    }

    function Ref(): seq<Chunk>
      requires Valid()
      reads this
    {
      PySlice(reference, Start(), Stop())
    }

    /** `scope`: the rows of the active window, every frame. */
    function Scope(): (m: seq<seq<Chunk>>)
      requires Valid()
      reads this, data
      ensures |m| == WindowLength()
      ensures forall r :: 0 <= r < |m| ==> |m[r]| == data.Length1
      ensures forall r, i :: 0 <= r < |m| && 0 <= i < data.Length1 ==> m[r][i] == data[Start() + r, i]
    {
      var k, start := WindowLength(), Start();
      seq(k, r requires 0 <= r < k reads data =>
        seq(data.Length1, i requires 0 <= i < data.Length1 reads data => data[start + r, i]))
    }

    /** `file[index]`: column `index` of the active rows minus the dark array; an index
        outside [-frames, frames) raises IndexError, a negative one counts from the end. */
    function Frame(index: int, sub: (Chunk, Chunk) -> Chunk): (r: Result<seq<Chunk>, Exception>)
      requires Valid()
      reads this, data
      ensures r.Failure? <==> index < -(Frames() as int) || index >= Frames()
      ensures r.Failure? ==> r.error == IndexError
    {
      var frames := data.Length1;
      if index < -frames || index >= frames then Failure(IndexError)
      else
        var col := if index >= 0 then index else frames + index;
        var k, start, dk := WindowLength(), Start(), Dark();
        Success(seq(k, q requires 0 <= q < k reads data => sub(data[start + q, col], dk[q])))
    }

    /** `signal` as written: `scope - dark`, which numpy broadcasts along the frame axis. */
    function SignalAsWritten(sub: (Chunk, Chunk) -> Chunk): Result<seq<seq<Chunk>>, Exception>
      requires Valid()
      reads this, data
    {
      BroadcastSubtract(Scope(), data.Length1, Dark(), sub)
    }

    /** The signal evidently meant: every frame of the active window minus the dark array,
        pixel by pixel. */
    function Signal(sub: (Chunk, Chunk) -> Chunk): (m: seq<seq<Chunk>>)
      requires Valid()
      reads this, data
      ensures |m| == WindowLength()
      ensures forall r, i :: 0 <= r < |m| && 0 <= i < data.Length1 ==>
        |m[r]| == data.Length1 && m[r][i] == sub(data[Start() + r, i], Dark()[r])
    {
      WindowsAgree();
      SubtractRows(Scope(), Dark(), sub)
    }

    /** Every active-window view keeps the same rows: the half-open `[StartPixel, StopPixel)`
        clipped to the sensor, which is `pixels` rows when the range lies on the sensor. */
    lemma WindowsAgree()
      requires Valid()
      ensures |Wavelength()| == WindowLength() && |Dark()| == WindowLength()
      ensures |Ref()| == WindowLength()
      ensures Start() <= Stop() <= sensorPixels ==> WindowLength() == ActivePixels()
      ensures forall q :: 0 <= q < WindowLength() ==>
        Wavelength()[q] == wavelength[Start() + q] && Dark()[q] == dark[Start() + q]
        && Ref()[q] == reference[Start() + q]
    {
    }

    /** Frame i is column i of the signal: indexing and `signal` use the same window and the
        same dark array. */
    lemma {:induction false} FrameIsSignalColumn(i: nat, sub: (Chunk, Chunk) -> Chunk)
      requires Valid() && i < Frames()
      ensures Frame(i, sub).Success?
      ensures |Frame(i, sub).value| == |Signal(sub)|
      ensures forall q :: 0 <= q < |Signal(sub)| ==> Frame(i, sub).value[q] == Signal(sub)[q][i]
    {
      WindowsAgree();
    }

    /** The signal as written fails on any file whose active window has several rows and
        whose frame count is neither 1 nor the window's row count. */
    lemma {:induction false} SignalAsWrittenFails(sub: (Chunk, Chunk) -> Chunk)
      requires Valid()
      requires WindowLength() > 1 && Frames() != 1 && Frames() != WindowLength()
      ensures SignalAsWritten(sub) == Failure(ValueError)
    {
      WindowsAgree();
      BroadcastAccepts(Scope(), data.Length1, Dark(), sub);
    }
  }

  // ------------------------------------------------------------ reading a file

  /** What `STRFile(path)` leaves in a reader built from `data` when the pixel count is not
      negative: the raw preamble and header, the three pixel arrays, and for every frame its
      delay and its column of samples. */
  predicate Decoded(f: StrFile, data: seq<byte>, long: CLong)
    requires StrReadable(data, long) && PixelCount(data) >= 0
    reads f, f.delay, f.data
  {
    var p := PixelCount(data) as nat;
    f.Valid() && f.preamble == data[..StrPreambleSize]
    && f.header == data[StrPreambleSize..StrPreambleSize + StrHeaderSize]
    && f.sensorPixels == p
    && f.wavelength == PixelArray(data, long, 0) && f.dark == PixelArray(data, long, 1)
    && f.reference == PixelArray(data, long, 2)
    && (forall i :: 0 <= i < f.delay.Length ==>
          f.delay[i] == FrameDelay(data, FramesStart(p), p, long, f.delay.Length, i))
    && (forall q, i :: 0 <= q < f.data.Length0 && 0 <= i < f.data.Length1 ==>
          f.data[q, i] == FrameSample(data, FramesStart(p), p, long, f.data.Length1, i, q))
  }

  /** `STRFile(path)` on a file holding `data`: check the magic, read the header, read the
      signed pixel count at byte 10000, skip that many doubles (OSError when that seeks
      before the start of the file), allocate the arrays (ValueError for a negative pixel
      count), then read the three arrays and the frames. The stream is assumed to hold
      everything it announces. */
  method ReadStrFile(data: seq<byte>, long: CLong) returns (r: Result<StrFile, Exception>)
    requires |data| >= StrPreambleSize
    requires data[..3] == StrMagic ==> StrReadable(data, long)
    ensures data[..3] != StrMagic ==> r == Failure(AvaReadException)
    ensures data[..3] == StrMagic ==> (r.Failure? <==> PixelCount(data) < 0)
    ensures data[..3] == StrMagic && PixelCount(data) < 0 ==>
      r == Failure(if PixelBlockAt + PixelBlockSize + PixelCount(data) * SampleSize < 0
        then OSError else ValueError)
    ensures r.Success? ==> fresh(r.value) && fresh(r.value.delay) && fresh(r.value.data)
    ensures r.Success? ==> data[..3] == StrMagic && PixelCount(data) >= 0
    ensures r.Success? ==> Decoded(r.value, data, long)
  {
    var s := new ByteStream(data);
    var pre := s.Read(StrPreambleSize);
    UntilNulExact(pre[..3], StrMagic);
    assert pre[..3] == data[..3];
    if UntilNul(pre[..3]) != StrMagic {
      return Failure(AvaReadException);
    }
    var header := s.Read(StrHeaderSize);
    s.Seek(PixelBlockAt);
    var block := s.Read(PixelBlockSize);
    assert block[0..2] == data[PixelBlockAt..PixelBlockAt + 2];
    var pixels := SignedLittleEndian(block[0..2]);
    if s.pos + pixels * SampleSize < 0 {
      return Failure(OSError);
    }
    s.SeekRelative(pixels * SampleSize);
    if pixels < 0 {
      return Failure(ValueError);
    }
    var f := ReadBody(s, pre, header, long);
    r := Success(f);
  }

  /** The rest of `STRFile(path)` once the pixel count is known not to be negative: the
      three arrays, the zeroed delay and sample arrays, and the frame loop. */
  method ReadBody(s: ByteStream, pre: seq<byte>, header: seq<byte>, long: CLong) returns (f: StrFile)
    requires StrReadable(s.data, long) && PixelCount(s.data) >= 0
    requires pre == s.data[..StrPreambleSize]
    requires header == s.data[StrPreambleSize..StrPreambleSize + StrHeaderSize]
    requires s.pos == ArraysStart(PixelCount(s.data) as nat)
    modifies s
    ensures fresh(f) && fresh(f.delay) && fresh(f.data)
    ensures Decoded(f, s.data, long)
  {
    var p: nat := PixelCount(s.data);
    var wavelength, dark, reference := ReadPixelArrays(s, long);
    f := new StrFile(pre, header, p, wavelength, dark, reference);
    f.ReadFrames(s, long);
  }

  /** The wavelength, dark and reference arrays: three runs of `p` doubles after the pixel
      block. */
  method ReadPixelArrays(s: ByteStream, long: CLong) returns (wavelength: seq<Chunk>, dark: seq<Chunk>, reference: seq<Chunk>)
    requires StrReadable(s.data, long) && PixelCount(s.data) >= 0
    requires s.pos == ArraysStart(PixelCount(s.data) as nat)
    modifies s
    ensures wavelength == PixelArray(s.data, long, 0)
    ensures dark == PixelArray(s.data, long, 1)
    ensures reference == PixelArray(s.data, long, 2)
    ensures s.pos == FramesStart(PixelCount(s.data) as nat)
  {
    var p: nat := PixelCount(s.data);
    ArraysFit(s.data, long);
    wavelength := s.FromFile(p, SampleSize);
    dark := s.FromFile(p, SampleSize);
    reference := s.FromFile(p, SampleSize);
  }
}
