/** `read_file`: the first five bytes of a file pick the reader. Bytes 0..3 are the format tag,
    decoded as strict UTF-8 and compared case-insensitively with "AVS" and "STR"; bytes 3..5
    are the version, parsed as Python's `int()` parses text and divided by ten. */
module ReadFile {
  import opened Wrappers
  import opened Bytes
  import opened ByteStreams
  import AvsFile
  import StrFile

  // ------------------------------------------------------------------ UTF-8

  predicate Continuation(c: byte) {
    0x80 <= c < 0xC0
  }

  /** The length of the well-formed UTF-8 sequence at the head of `b`, or 0 when the head is
      not one: no overlong forms, no surrogates, nothing above U+10FFFF (Python's strict
      decoder). */
  function SequenceWidth(b: seq<byte>): (w: nat)
    requires |b| > 0
    ensures w <= 4 && w <= |b|
    ensures w == 1 <==> b[0] < 0x80
  {
    var c := b[0];
    if c < 0x80 then 1
    else if 0xC2 <= c <= 0xDF then
      if |b| >= 2 && Continuation(b[1]) then 2 else 0
    else if 0xE0 <= c <= 0xEF then
      var lo: byte := if c == 0xE0 then 0xA0 else 0x80;
      var hi: byte := if c == 0xED then 0x9F else 0xBF;
      if |b| >= 3 && lo <= b[1] <= hi && Continuation(b[2]) then 3 else 0
    else if 0xF0 <= c <= 0xF4 then
      var lo: byte := if c == 0xF0 then 0x90 else 0x80;
      var hi: byte := if c == 0xF4 then 0x8F else 0xBF;
      if |b| >= 4 && lo <= b[1] <= hi && Continuation(b[2]) && Continuation(b[3]) then 4 else 0
    else 0
  }

  /** `b.decode()` succeeds: the bytes split into well-formed sequences. */
  predicate Utf8Valid(b: seq<byte>)
    decreases |b|
  {
    b == [] || (SequenceWidth(b) > 0 && Utf8Valid(b[SequenceWidth(b)..]))
  }

  predicate Ascii(b: seq<byte>) {
    forall k :: 0 <= k < |b| ==> b[k] < 0x80
  }

  /** ASCII text always decodes. */
  lemma {:induction false} AsciiIsUtf8(b: seq<byte>)
    requires Ascii(b)
    ensures Utf8Valid(b)
  {
    if b != [] {
      assert SequenceWidth(b) == 1;
      AsciiIsUtf8(b[1..]);
    }
  }

  /** Two decodable strings joined still decode. */
  lemma {:induction false} Utf8Concat(a: seq<byte>, b: seq<byte>)
    requires Utf8Valid(a) && Utf8Valid(b)
    ensures Utf8Valid(a + b)
    decreases |a|
  {
    if a != [] {
      var w := SequenceWidth(a);
      assert (a + b)[..w] == a[..w];
      assert SequenceWidth(a + b) == w by {
        SameHead(a, a + b, w);
      }
      assert (a + b)[w..] == a[w..] + b;
      Utf8Concat(a[w..], b);
      assert Utf8Valid((a + b)[w..]);
    } else {
      assert a + b == b;
    }
  }

  /** The width of the head sequence depends only on the bytes it covers. */
  lemma {:induction false} SameHead(a: seq<byte>, c: seq<byte>, w: nat)
    requires |a| > 0 && w == SequenceWidth(a) > 0
    requires w <= |c| && c[..w] == a[..w]
    ensures SequenceWidth(c) == w
  {
    assert c[0] == a[0];
    if w >= 2 { assert c[1] == a[1]; }
    if w >= 3 { assert c[2] == a[2]; }
    if w >= 4 { assert c[3] == a[3]; }
  }

  // ------------------------------------------------------------- upper case

  /** `str.upper()` on one ASCII character; every other byte is left as it is. */
  function UpperByte(c: byte): byte {
    if 0x61 <= c <= 0x7A then c - 0x20 else c
  }

  function Upper(b: seq<byte>): (u: seq<byte>)
    ensures |u| == |b|
    ensures forall k :: 0 <= k < |b| ==> u[k] == UpperByte(b[k])
  {
    seq(|b|, k requires 0 <= k < |b| => UpperByte(b[k]))
  }

  /** An upper-case letter name matches the upper-cased tag exactly when each byte of the tag
      is that letter in either case. */
  lemma {:induction false} UpperMatches(b: seq<byte>, name: seq<byte>)
    requires forall k :: 0 <= k < |name| ==> 0x41 <= name[k] <= 0x5A
    ensures Upper(b) == name <==>
      |b| == |name| && forall k :: 0 <= k < |b| ==> b[k] == name[k] || b[k] == name[k] + 0x20
  {
    if |b| == |name| && forall k :: 0 <= k < |b| ==> b[k] == name[k] || b[k] == name[k] + 0x20 {
      assert forall k :: 0 <= k < |b| ==> Upper(b)[k] == name[k];
    }
  }

  // ------------------------------------------------------------- int(text)

  predicate Space(c: byte) {
    c == 0x20 || 0x09 <= c <= 0x0D
  }

  predicate Digit(c: byte) {
    0x30 <= c <= 0x39
  }

  /** The text with leading ASCII white space removed. */
  function StripLeading(b: seq<byte>): (t: seq<byte>)
    ensures |t| <= |b| && t == b[|b| - |t|..]
    ensures t != [] ==> !Space(t[0])
  {
    if b != [] && Space(b[0]) then StripLeading(b[1..]) else b
  }

  /** Only white space is removed from the front. */
  lemma {:induction false} StripLeadingSpaces(b: seq<byte>, k: nat)
    requires k < |b| - |StripLeading(b)|
    ensures Space(b[k])
  {
    if k > 0 {
      StripLeadingSpaces(b[1..], k - 1);
    }
  }

  /** The text with trailing ASCII white space removed. */
  function StripTrailing(b: seq<byte>): (t: seq<byte>)
    ensures |t| <= |b| && t == b[..|t|]
    ensures t != [] ==> !Space(t[|t| - 1])
  {
    if b != [] && Space(b[|b| - 1]) then StripTrailing(b[..|b| - 1]) else b
  }

  /** Only white space is removed from the back. */
  lemma {:induction false} StripTrailingSpaces(b: seq<byte>, k: nat)
    requires |StripTrailing(b)| <= k < |b|
    ensures Space(b[k])
  {
    if k < |b| - 1 {
      StripTrailingSpaces(b[..|b| - 1], k);
    }
  }

  /** Decimal digits, where single underscores may separate two digits. */
  predicate DigitGroups(d: seq<byte>) {
    |d| > 0 && Digit(d[0]) && Digit(d[|d| - 1])
    && (forall k :: 0 <= k < |d| ==> Digit(d[k]) || d[k] == 0x5F)
    && (forall k :: 0 <= k < |d| - 1 ==> Digit(d[k]) || Digit(d[k + 1]))
  }

  function Pow10(n: nat): (r: nat)
    ensures r > 0
  {
    if n == 0 then 1 else 10 * Pow10(n - 1)
  }

  /** The value of the digits of `d`, read left to right, underscores skipped. */
  function DecimalValue(d: seq<byte>): (v: nat)
    requires forall k :: 0 <= k < |d| ==> Digit(d[k]) || d[k] == 0x5F
    ensures v < Pow10(|d|)
  {
    if d == [] then 0
    else
      var init := d[..|d| - 1];
      var last := d[|d| - 1];
      if last == 0x5F then DecimalValue(init)
      else
        var v := DecimalValue(init);
        assert Digit(d[|d| - 1]);
        assert 10 * v + 10 <= Pow10(|d|) by {
          assert v + 1 <= Pow10(|init|);
          assert Pow10(|d|) == 10 * Pow10(|init|);
        }
        10 * v + (last as int - 0x30)
  }

  /** `int(b)` for base 10: white space around, an optional sign, then digit groups;
      None where Python raises ValueError. */
  function PyInt(b: seq<byte>): (r: Option<int>)
    ensures r.Some? ==> -(Pow10(|b|) as int) < r.value < Pow10(|b|)
  {
    var t := StripTrailing(StripLeading(b));
    if t != [] && (t[0] == 0x2B || t[0] == 0x2D) then
      if DigitGroups(t[1..]) then
        var v := DecimalValue(t[1..]);
        PowMonotone(|t| - 1, |b|);
        Some(if t[0] == 0x2D then -(v as int) else v)
      else None
    else if DigitGroups(t) then
      PowMonotone(|t|, |b|);
      Some(DecimalValue(t))
    else None
  }

  lemma {:induction false} PowMonotone(m: nat, n: nat)
    requires m <= n
    ensures Pow10(m) <= Pow10(n)
    decreases n
  {
    if m < n {
      PowMonotone(m, n - 1);
    }
  }

  /** A version written as two decimal digits reads back as their value. */
  lemma {:induction false} TwoDigitVersion(b: seq<byte>)
    requires |b| == 2 && Digit(b[0]) && Digit(b[1])
    ensures PyInt(b) == Some(10 * (b[0] as int - 0x30) + (b[1] as int - 0x30))
  {
    DigitPair(b);
    UnsignedDigits(b);
  }

  /** Digit groups with nothing around them read as their decimal value. */
  lemma {:induction false} UnsignedDigits(b: seq<byte>)
    requires DigitGroups(b)
    ensures PyInt(b) == Some(DecimalValue(b))
  {
    Unstripped(b);
  }

  /** Text that neither starts nor ends with white space is left as it is by stripping. */
  lemma {:induction false} Unstripped(b: seq<byte>)
    requires b != [] && !Space(b[0]) && !Space(b[|b| - 1])
    ensures StripTrailing(StripLeading(b)) == b
  {
    assert StripLeading(b) == b;
  }

  /** Two digits read as a decimal number. */
  lemma {:induction false} DigitPair(b: seq<byte>)
    requires |b| == 2 && Digit(b[0]) && Digit(b[1])
    ensures DigitGroups(b)
    ensures DecimalValue(b) == 10 * (b[0] as int - 0x30) + (b[1] as int - 0x30)
  {
    assert DecimalValue(b[..1]) == b[0] as int - 0x30 by {
      assert b[..1][..0] == [];
    }
  }

  /** Text without digits is not a number. */
  lemma {:induction false} NoDigitsNoNumber(b: seq<byte>)
    requires forall k :: 0 <= k < |b| ==> !Digit(b[k])
    ensures PyInt(b) == None
  {
    var t := StripTrailing(StripLeading(b));
    var l := StripLeading(b);
    assert forall k :: 0 <= k < |t| ==> t[k] == b[|b| - |l| + k];
    if t != [] {
      assert !Digit(t[0]);
    }
  }

  // ------------------------------------------------------------------ probe

  datatype Format = AvsFormat | StrFormat

  /** `fo.read(5)`: the first five bytes, or the whole file when it is shorter. */
  function Prelude(data: seq<byte>): (p: seq<byte>)
    ensures |p| == Min(5, |data|) && p == data[..|p|]
  {
    data[..Min(5, |data|)]
  }

  /** The decisions `read_file` takes on the prelude, in its order: decoding the tag
      (UnicodeDecodeError, a ValueError), parsing the version (ValueError), then the tag,
      with versions below 8.0 refused. An unknown tag is refused only after both parses. */
  function Probe(prelude: seq<byte>): (r: Result<Format, Exception>)
  {
    var tag := PySlice(prelude, 0, 3);
    if !Utf8Valid(tag) then Failure(ValueError)
    else
      var version := PyInt(PySlice(prelude, 3, 5));
      if version.None? then Failure(ValueError)
      else if Upper(tag) == AvsFile.AvsMagic then
        if version.value < 80 then Failure(AvaReadException) else Success(AvsFormat)
      else if Upper(tag) == StrFile.StrMagic then
        if version.value < 80 then Failure(AvaReadException) else Success(StrFormat)
      else Failure(AvaReadException)
  }

  /** The prelude names a format exactly when its tag is that format's name in any case
      and its version parses to at least 80, that is version 8.0. */
  lemma {:induction false} ProbeAccepts(prelude: seq<byte>, format: Format)
    requires |prelude| <= 5
    ensures Probe(prelude) == Success(format) <==>
      |prelude| >= 3
      && Upper(prelude[..3]) == (if format == AvsFormat then AvsFile.AvsMagic else StrFile.StrMagic)
      && var version := PyInt(prelude[3..]);
         version.Some? && version.value >= 80
  {
    var tag := PySlice(prelude, 0, 3);
    if |prelude| < 3 {
      assert |Upper(tag)| < 3;
      return;
    }
    assert tag == prelude[..3];
    assert PySlice(prelude, 3, 5) == prelude[3..];
    var name := if format == AvsFormat then AvsFile.AvsMagic else StrFile.StrMagic;
    if Upper(tag) == name {
      MagicLetters(name);
      UpperLettersAscii(tag, name);
      AsciiIsUtf8(tag);
    }
  }

  /** Both format names are written in capital letters. */
  lemma MagicLetters(name: seq<byte>)
    requires name == AvsFile.AvsMagic || name == StrFile.StrMagic
    ensures forall k :: 0 <= k < |name| ==> 0x41 <= name[k] <= 0x5A
  {
  }

  /** Text that upper-cases to capital letters is ASCII. */
  lemma {:induction false} UpperLettersAscii(b: seq<byte>, name: seq<byte>)
    requires forall k :: 0 <= k < |name| ==> 0x41 <= name[k] <= 0x5A
    requires Upper(b) == name
    ensures Ascii(b)
  {
    assert forall k :: 0 <= k < |b| ==> UpperByte(b[k]) == name[k];
  }

  /** A tag that is no format's name, in any case, is refused with AvaReadException once the
      tag decodes and the version parses. */
  lemma {:induction false} UnknownTagRefused(prelude: seq<byte>)
    requires Utf8Valid(PySlice(prelude, 0, 3)) && PyInt(PySlice(prelude, 3, 5)).Some?
    requires Upper(PySlice(prelude, 0, 3)) != AvsFile.AvsMagic
    requires Upper(PySlice(prelude, 0, 3)) != StrFile.StrMagic
    ensures Probe(prelude) == Failure(AvaReadException)
  {
  }

  // ------------------------------------------------------------- read_file

  /** What `read_file` returns: one reader or the other. */
  datatype AvaFile = Avs(avs: AvsFile.AvsFile) | Str(str: StrFile.StrFile)

  /** `read_file(path)` on a file holding `data`: probe the prelude, then hand the whole file
      to the reader its tag names. `long` is the platform's `sizeof(c_long)`. */
  method ReadFile(data: seq<byte>, long: StrFile.CLong) returns (r: Result<AvaFile, Exception>)
    requires Probe(Prelude(data)) == Success(AvsFormat) ==>
      |data| >= AvsFile.PreambleSize
      && (data[..3] == AvsFile.AvsMagic ==> AvsFile.ChainReadable(data, AvsFile.PreambleSize, data[5] as nat))
    requires Probe(Prelude(data)) == Success(StrFormat) ==>
      |data| >= StrFile.StrPreambleSize
      && (data[..3] == StrFile.StrMagic ==> StrFile.StrReadable(data, long))
    ensures Probe(Prelude(data)).Failure? ==> r == Failure(Probe(Prelude(data)).error)
    ensures Probe(Prelude(data)) == Success(AvsFormat) ==>
      (r.Failure? <==> (data[..3] != AvsFile.AvsMagic
                        || !AvsFile.ChainDecodes(data, AvsFile.PreambleSize, data[5] as nat)))
      && (data[..3] != AvsFile.AvsMagic ==> r == Failure(AvaReadException))
      && (data[..3] == AvsFile.AvsMagic && r.Failure? ==> r.error == ValueError)
    ensures Probe(Prelude(data)) == Success(AvsFormat) && r.Success? ==>
      r.value.Avs? && r.value.avs.preamble == data[..AvsFile.PreambleSize]
      && r.value.avs.channels == AvsFile.ChannelsFrom(data, AvsFile.PreambleSize, data[5] as nat)
    ensures Probe(Prelude(data)) == Success(StrFormat) ==>
      (data[..3] != StrFile.StrMagic ==> r == Failure(AvaReadException))
      && (data[..3] == StrFile.StrMagic ==> (r.Failure? <==> StrFile.PixelCount(data) < 0))
      && (data[..3] == StrFile.StrMagic && StrFile.PixelCount(data) < 0 ==>
            r == Failure(if StrFile.PixelBlockAt + StrFile.PixelBlockSize
                              + StrFile.PixelCount(data) * StrFile.SampleSize < 0
                         then OSError else ValueError))
    ensures Probe(Prelude(data)) == Success(StrFormat) && r.Success? ==> r.value.Str?
    ensures r.Success? && r.value.Str? ==>
      fresh(r.value.str) && Probe(Prelude(data)) == Success(StrFormat)
      && data[..3] == StrFile.StrMagic && StrFile.PixelCount(data) >= 0
    ensures r.Success? && r.value.Str? ==> StrFile.Decoded(r.value.str, data, long)
  {
    var s := new ByteStream(data);
    var prelude := s.Read(Min(5, |data|));
    assert prelude == Prelude(data);
    var probe := Probe(Prelude(data));
    if probe.Failure? {
      return Failure(probe.error);
    }
    if probe.value == AvsFormat {
      var avs := AvsFile.ReadAvsFile(data);
      if avs.Failure? {
        return Failure(avs.error);
      }
      r := Success(Avs(avs.value));
    } else {
      var str := StrFile.ReadStrFile(data, long);
      if str.Failure? {
        return Failure(str.error);
      }
      r := Success(Str(str.value));
    }
  }

  /** A tag in lower case passes the probe, but the AVS reader itself compares the magic
      exactly, so `read_file` still refuses the file. */
  lemma {:induction false} LowerCaseAvsTag(data: seq<byte>)
    requires |data| >= 5 && data[..5] == [0x61, 0x76, 0x73, 0x38, 0x30]
    ensures Probe(Prelude(data)) == Success(AvsFormat)
    ensures data[..3] != AvsFile.AvsMagic
  {
    var p := Prelude(data);
    assert p == data[..5];
    var tag := PySlice(p, 0, 3);
    assert tag == [0x61, 0x76, 0x73];
    AsciiIsUtf8(tag);
    UpperMatches(tag, AvsFile.AvsMagic);
    assert Upper(tag) == AvsFile.AvsMagic;
    var digits := PySlice(p, 3, 5);
    assert digits == [0x38, 0x30];
    TwoDigitVersion(digits);
    assert PyInt(digits) == Some(80);
    assert data[0] == 0x61;
  }
}
