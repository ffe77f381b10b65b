/** Regular AVS files: a 6-byte preamble (magic "AVS", version, channel count) followed by
    one channel block after another, each starting where the previous one said. */
module AvsFile {
  import opened Wrappers
  import opened Bytes
  import opened AvaTypes
  import opened Timestamp
  import opened ByteStreams
  import opened AvsChannel

  const PreambleSize: nat := 6
  /** The magic bytes "AVS". */
  const AvsMagic: seq<byte> := [0x41, 0x56, 0x53]

  /** `AVSFile`: the raw preamble and the channels in stream order. */
  datatype AvsFile = AvsFile(preamble: seq<byte>, channels: seq<Channel>)

  /** `preamble.channels`: the c_ubyte at offset 5. */
  function ChannelCount(pre: seq<byte>): nat
    requires |pre| == PreambleSize
  {
    pre[5] as nat
  }

  /** `len(file)` reports the preamble's count, not the length of the list. */
  function Len(f: AvsFile): nat
    requires |f.preamble| == PreambleSize
  {
    ChannelCount(f.preamble)
  }

  /** `preamble.FileType == b"AVS"`: the c_char[3] value stops at the first NUL. */
  predicate MagicMatches(pre: seq<byte>)
    requires |pre| == PreambleSize
  {
    UntilNul(pre[..3]) == AvsMagic
  }

  /** The NUL truncation never matters for this comparison: only the exact bytes match. */
  lemma {:induction false} MagicExact(pre: seq<byte>)
    requires |pre| == PreambleSize
    ensures MagicMatches(pre) <==> pre[..3] == AvsMagic
  {
    UntilNulExact(pre[..3], AvsMagic);
  }

  // ------------------------------------------------------------ the chain of blocks

  /** `count` blocks decode one after the other from `start`: each lies in the file and
      its payload reshapes. */
  predicate ChainDecodes(data: seq<byte>, start: nat, count: nat)
    decreases count
  {
    count == 0
    || (BlockReadable(data, start) && Reshapes(data, start)
        && ChainDecodes(data, NextBlock(data, start), count - 1))
  }

  /** The file holds every block the reader reaches from `start`: blocks lie in the file
      one after the other until `count` are read or one has a payload `reshape` refuses. */
  predicate ChainReadable(data: seq<byte>, start: nat, count: nat)
    decreases count
  {
    count == 0
    || (BlockReadable(data, start)
        && (Reshapes(data, start) ==> ChainReadable(data, NextBlock(data, start), count - 1)))
  }

  /** Block i of a readable chain whose first i blocks decode lies in the file; the chain
      decodes one block further exactly when that block reshapes, and a block that does
      not reshape stops the whole chain from decoding. */
  lemma {:induction false} ChainRead(data: seq<byte>, start: nat, count: nat, i: nat)
    requires ChainReadable(data, start, count) && ChainDecodes(data, start, i) && i < count
    ensures BlockReadable(data, ChainEnd(data, start, i))
    ensures ChainDecodes(data, start, i + 1) <==> Reshapes(data, ChainEnd(data, start, i))
    ensures !Reshapes(data, ChainEnd(data, start, i)) ==> !ChainDecodes(data, start, count)
    decreases i
  {
    if i > 0 {
      ChainRead(data, NextBlock(data, start), count - 1, i - 1);
    }
  }

  /** The channels `count` successive `from_buffer` calls decode from `start`. */
  function ChannelsFrom(data: seq<byte>, start: nat, count: nat): (chs: seq<Channel>)
    requires ChainDecodes(data, start, count)
    ensures |chs| == count
    ensures forall k :: 0 <= k < count ==> Valid(chs[k])
    decreases count
  {
    if count == 0 then []
    else [BlockAt(data, start)] + ChannelsFrom(data, NextBlock(data, start), count - 1)
  }

  /** The cursor after `count` successive `from_buffer` calls from `start`. */
  function ChainEnd(data: seq<byte>, start: nat, count: nat): nat
    requires ChainDecodes(data, start, count)
    decreases count
  {
    if count == 0 then start else ChainEnd(data, NextBlock(data, start), count - 1)
  }

  /** What a run of channel blocks moves the cursor: each block length plus the gap. */
  function Consumed(chs: seq<Channel>): nat
    requires forall k :: 0 <= k < |chs| ==> |chs[k].header| == HeaderSize
  {
    if chs == [] then 0 else BlockLength(chs[0].header) + Padding + Consumed(chs[1..])
  }

  /** A chain of `count` readable blocks begins with a readable chain of any shorter length. */
  lemma {:induction false} ChainPrefix(data: seq<byte>, start: nat, i: nat, count: nat)
    requires i <= count && ChainDecodes(data, start, count)
    ensures ChainDecodes(data, start, i)
    decreases i
  {
    if i > 0 {
      ChainPrefix(data, NextBlock(data, start), i - 1, count - 1);
    }
  }

  /** Reading one more block extends the channel list by the block where the cursor is. */
  lemma {:induction false} ChainStep(data: seq<byte>, start: nat, i: nat)
    requires ChainDecodes(data, start, i + 1)
    ensures ChainDecodes(data, start, i)
    ensures BlockReadable(data, ChainEnd(data, start, i)) && Reshapes(data, ChainEnd(data, start, i))
    ensures ChannelsFrom(data, start, i + 1)
      == ChannelsFrom(data, start, i) + [BlockAt(data, ChainEnd(data, start, i))]
    ensures ChainEnd(data, start, i + 1) == NextBlock(data, ChainEnd(data, start, i))
  {
    ChainPrefix(data, start, i, i + 1);
    EndStep(data, start, i);
    ChannelsStep(data, start, i);
  }

  /** The cursor after one more block is where the last block of the chain ends. */
  lemma {:induction false} EndStep(data: seq<byte>, start: nat, i: nat)
    requires ChainDecodes(data, start, i + 1) && ChainDecodes(data, start, i)
    ensures BlockReadable(data, ChainEnd(data, start, i)) && Reshapes(data, ChainEnd(data, start, i))
    ensures ChainEnd(data, start, i + 1) == NextBlock(data, ChainEnd(data, start, i))
    decreases i
  {
    if i > 0 {
      var next := NextBlock(data, start);
      EndStep(data, next, i - 1);
    }
  }

  /** The channels of one more block are those of the chain and the block after it. */
  lemma {:induction false} ChannelsStep(data: seq<byte>, start: nat, i: nat)
    requires ChainDecodes(data, start, i + 1) && ChainDecodes(data, start, i)
    requires BlockReadable(data, ChainEnd(data, start, i)) && Reshapes(data, ChainEnd(data, start, i))
    ensures ChannelsFrom(data, start, i + 1)
      == ChannelsFrom(data, start, i) + [BlockAt(data, ChainEnd(data, start, i))]
    decreases i
  {
    if i > 0 {
      var next := NextBlock(data, start);
      EndStep(data, next, i - 1);
      ChannelsStep(data, next, i - 1);
      assert ChannelsFrom(data, start, i + 1) == [BlockAt(data, start)] + ChannelsFrom(data, next, i);
    }
  }

  /** After the chain the cursor has moved by the sum over its channels of block length
      plus the 10-byte gap. */
  lemma {:induction false} ChainEndSum(data: seq<byte>, start: nat, count: nat)
    requires ChainDecodes(data, start, count)
    ensures ChainEnd(data, start, count) == start + Consumed(ChannelsFrom(data, start, count))
    decreases count
  {
    if count > 0 {
      var next := NextBlock(data, start);
      ChainEndSum(data, next, count - 1);
      var chs := ChannelsFrom(data, start, count);
      assert chs[0] == BlockAt(data, start);
      assert chs[1..] == ChannelsFrom(data, next, count - 1);
    }
  }

  /** Channel k is decoded from the block where the cursor stands after k blocks. */
  lemma {:induction false} ChannelAt(data: seq<byte>, start: nat, count: nat, k: nat)
    requires ChainDecodes(data, start, count) && k < count
    ensures ChainDecodes(data, start, k)
    ensures BlockReadable(data, ChainEnd(data, start, k)) && Reshapes(data, ChainEnd(data, start, k))
    ensures ChannelsFrom(data, start, count)[k] == BlockAt(data, ChainEnd(data, start, k))
    decreases k
  {
    if k > 0 {
      ChannelAt(data, NextBlock(data, start), count - 1, k - 1);
    }
  }

  // ------------------------------------------------------------ reading a file

  /** `AVSFile(path)` on a file holding `data`: read the preamble, reject a wrong magic,
      then decode `preamble.channels` blocks in stream order, passing on the ValueError of
      a block whose payload does not reshape. The stream is assumed to hold every block
      the reader reaches. */
  method ReadAvsFile(data: seq<byte>) returns (r: Result<AvsFile, Exception>)
    requires |data| >= PreambleSize
    requires data[..3] == AvsMagic ==> ChainReadable(data, PreambleSize, data[5] as nat)
    ensures r.Failure? <==> (data[..3] != AvsMagic || !ChainDecodes(data, PreambleSize, data[5] as nat))
    ensures data[..3] != AvsMagic ==> r == Failure(AvaReadException)
    ensures data[..3] == AvsMagic && r.Failure? ==> r.error == ValueError
    ensures r.Success? ==> r.value.preamble == data[..PreambleSize]
    ensures r.Success? ==> r.value.channels == ChannelsFrom(data, PreambleSize, data[5] as nat)
    ensures r.Success? ==> |r.value.channels| == Len(r.value)
  {
    var s := new ByteStream(data);
    var pre := s.Read(PreambleSize);
    MagicExact(pre);
    assert pre[..3] == data[..3];
    if UntilNul(pre[..3]) != AvsMagic {
      return Failure(AvaReadException);
    }
    var channels := ReadChannels(s, ChannelCount(pre));
    if channels.Failure? {
      return Failure(channels.error);
    }
    r := Success(AvsFile(pre, channels.value));
  }

  /** The channel loop of `AVSFile`: `count` successive `from_buffer` calls from the
      cursor, stopping at the first ValueError. */
  method ReadChannels(s: ByteStream, count: nat) returns (r: Result<seq<Channel>, Exception>)
    requires ChainReadable(s.data, s.pos, count)
    modifies s
    ensures r.Failure? <==> !ChainDecodes(s.data, old(s.pos), count)
    ensures r.Failure? ==> r.error == ValueError
    ensures r.Success? ==> r.value == ChannelsFrom(s.data, old(s.pos), count)
  {
    ghost var data, start := s.data, s.pos;
    var channels: seq<Channel> := [];
    var i := 0;
    while i < count
      invariant i <= count && s.data == data
      invariant ChainDecodes(data, start, i)
      invariant s.pos == ChainEnd(data, start, i)
      invariant channels == ChannelsFrom(data, start, i)
    {
      ChainRead(data, start, count, i);
      var ch := ReadChannel(s, 0);
      if ch.Failure? {
        return Failure(ch.error);
      }
      ChainStep(data, start, i);
      channels := channels + [ch.value];
      i := i + 1;
    }
    r := Success(channels);
  }

  // ------------------------------------------------------------ lookup

  /** A `__getitem__` key: a Python int, or anything else, compared with the serials. */
  datatype Key = Index(i: int) | SerialKey(serial: string)

  /** Index of the first element equal to x: `list.index`. */
  function IndexOf(xs: seq<string>, x: string): (k: nat)
    requires x in xs
    ensures k < |xs| && xs[k] == x
    ensures forall j :: 0 <= j < k ==> xs[j] != x
  {
    if xs[0] == x then 0 else 1 + IndexOf(xs[1..], x)
  }

  /** The serial of every channel, in order. */
  function Serials(chs: seq<Channel>): (keys: seq<string>)
    requires forall k :: 0 <= k < |chs| ==> |chs[k].header| == HeaderSize
    ensures |keys| == |chs|
    ensures forall k :: 0 <= k < |chs| ==> keys[k] == Serial(chs[k].header)
  {
    seq(|chs|, k requires 0 <= k < |chs| => Serial(chs[k].header))
  }

  /** `file[key]`: an int key past the end raises IndexError, and any other int indexes the
      list as Python does, counting from the end when negative; any other key must be the
      serial of some channel (KeyError otherwise) and selects the first such channel. */
  function GetItem(f: AvsFile, key: Key): Result<Channel, Exception>
    requires forall k :: 0 <= k < |f.channels| ==> |f.channels[k].header| == HeaderSize
  {
    var chs := f.channels;
    match key
    case Index(i) =>
      if i >= |chs| then Failure(IndexError)
      else if i >= 0 then Success(chs[i])
      else if i >= -|chs| then Success(chs[|chs| + i])
      else Failure(IndexError)
    case SerialKey(s) =>
      var keys := Serials(chs);
      if s !in keys then Failure(KeyError) else Success(chs[IndexOf(keys, s)])
  }

  /** Indexing: every position in range gives that channel, from the front or the back, and
      nothing else succeeds. */
  lemma {:induction false} GetItemIndex(f: AvsFile, i: int)
    requires forall k :: 0 <= k < |f.channels| ==> |f.channels[k].header| == HeaderSize
    ensures GetItem(f, Index(i)).Success? <==> -|f.channels| <= i < |f.channels|
    ensures GetItem(f, Index(i)).Failure? ==> GetItem(f, Index(i)).error == IndexError
    ensures 0 <= i < |f.channels| ==> GetItem(f, Index(i)) == Success(f.channels[i])
    ensures -|f.channels| <= i < 0 ==>
      GetItem(f, Index(i)) == Success(f.channels[|f.channels| + i])
  {
  }

  /** Lookup by serial succeeds exactly for the serials in the file, and then gives the
      first channel carrying it. */
  lemma {:induction false} GetItemSerial(f: AvsFile, s: string)
    requires forall k :: 0 <= k < |f.channels| ==> |f.channels[k].header| == HeaderSize
    ensures GetItem(f, SerialKey(s)).Success? <==>
      exists k :: 0 <= k < |f.channels| && Serial(f.channels[k].header) == s
    ensures GetItem(f, SerialKey(s)).Failure? ==> GetItem(f, SerialKey(s)).error == KeyError
    ensures GetItem(f, SerialKey(s)).Success? ==>
      exists k :: (0 <= k < |f.channels| && GetItem(f, SerialKey(s)).value == f.channels[k]
        && Serial(f.channels[k].header) == s
        && forall j :: 0 <= j < k ==> Serial(f.channels[j].header) != s)
  {
    var keys := Serials(f.channels);
    if s in keys {
      var k := IndexOf(keys, s);
      assert Serial(f.channels[k].header) == s;
    } else {
      forall k | 0 <= k < |f.channels|
        ensures Serial(f.channels[k].header) != s
      {
        assert keys[k] == Serial(f.channels[k].header);
      }
    }
  }

  /** Looking a channel up by its own serial gives it back when no earlier channel shares
      that serial. */
  lemma {:induction false} GetItemOwnSerial(f: AvsFile, k: nat)
    requires forall j :: 0 <= j < |f.channels| ==> |f.channels[j].header| == HeaderSize
    requires k < |f.channels|
    requires forall j :: 0 <= j < k ==> Serial(f.channels[j].header) != Serial(f.channels[k].header)
    ensures GetItem(f, SerialKey(Serial(f.channels[k].header))) == Success(f.channels[k])
  {
    var s := Serial(f.channels[k].header);
    var keys := Serials(f.channels);
    assert keys[k] == s;
    var found := IndexOf(keys, s);
    assert found == k by {
      assert found <= k;
      assert keys[found] == Serial(f.channels[found].header);
    }
  }

  // ------------------------------------------------------------ file date

  /** `file.date` as written: the first channel's date, which always raises; an empty
      file raises IndexError first. */
  function DateAsWritten(f: AvsFile): Result<DateTime, Exception>
    requires forall k :: 0 <= k < |f.channels| ==> |f.channels[k].header| == HeaderSize
  {
    if |f.channels| == 0 then Failure(IndexError) else AvsChannel.DateAsWritten(f.channels[0])
  }

  /** No file has a date as written. */
  lemma {:induction false} FileDateAsWrittenFails(f: AvsFile)
    requires forall k :: 0 <= k < |f.channels| ==> |f.channels[k].header| == HeaderSize
    ensures DateAsWritten(f).Failure?
    ensures |f.channels| > 0 ==> DateAsWritten(f) == Failure(AttributeError)
  {
    if |f.channels| > 0 {
      DateAsWrittenFails(f.channels[0]);
    }
  }

  /** The date the property evidently means: the first channel's `Misc.file_datetime`. */
  function Date(f: AvsFile): (r: Result<DateTime, Exception>)
    requires forall k :: 0 <= k < |f.channels| ==> |f.channels[k].header| == HeaderSize
    ensures |f.channels| == 0 ==> r == Failure(IndexError)
    ensures |f.channels| > 0 ==> r == AvsChannel.Date(f.channels[0])
  {
    if |f.channels| == 0 then Failure(IndexError) else AvsChannel.Date(f.channels[0])
  }
}
