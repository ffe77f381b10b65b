/** A binary file opened for reading: its bytes and a cursor that reads and seeks move. */
module ByteStreams {
  import opened Bytes

  class ByteStream {
    const data: seq<byte>
    var pos: nat

    constructor (data: seq<byte>)
      ensures this.data == data && pos == 0
    {
      this.data := data;
      pos := 0;
    }

    /** `tell()`. */
    method Tell() returns (p: nat)
      ensures p == pos
    {
      p := pos;
    }

    /** `seek(p)`: any non-negative position, also past the end of the file. */
    method Seek(p: nat)
      modifies this
      ensures pos == p
    {
      pos := p;
    }

    /** `seek(off, SEEK_CUR)`; a position below zero raises OSError, which callers exclude. */
    method SeekRelative(off: int)
      requires pos + off >= 0
      modifies this
      ensures pos == old(pos) + off
    {
      pos := pos + off;
    }

    /** `read(n)` or `readinto` of an n-byte structure, on a stream that holds n more bytes. */
    method Read(n: nat) returns (b: seq<byte>)
      requires pos + n <= |data|
      modifies this
      ensures b == data[old(pos)..old(pos) + n]
      ensures pos == old(pos) + n
    {
      b := data[pos..pos + n];
      pos := pos + n;
    }

    /** The bytes left between the cursor and the end of the file. */
    function Remaining(): nat
      reads this
    {
      if pos <= |data| then |data| - pos else 0
    }

    /** `np.fromfile(f, dtype, count)` for an element type of `width` bytes: `count`
        consecutive elements, kept as uninterpreted chunks; a negative count reads every
        whole element left in the file. */
    method FromFile(count: int, width: nat) returns (items: seq<Chunk>)
      requires width > 0 && pos <= |data|
      requires count >= 0 ==> pos + count * width <= |data|
      modifies this
      ensures count >= 0 ==> |items| == count
      ensures count < 0 ==> |items| == old(Remaining()) / width
      ensures old(pos) + |items| * width <= |data|
      ensures items == Chunks(data[old(pos)..old(pos) + |items| * width], |items|, width)
      ensures pos == old(pos) + |items| * width
    {
      var k: nat := if count >= 0 then count else Remaining() / width;
      assert count < 0 ==> Remaining() == k * width + Remaining() % width;
      var b := Read(k * width);
      items := Chunks(b, k, width);
    }
  }
}
