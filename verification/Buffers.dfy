/**
 Netty buffers as far as the frame code uses them. A buffer holds its written bytes and a reader
 index; the writer index is the number of written bytes. A read outside them fails.
 */
module Buffers {
  import opened Wrappers
  import opened Utf8

  datatype Error = IndexOutOfBounds | IllegalArgument(length: int)

  const SHORT_BYTES := 2
  const UNSIGNED_SHORT_MAX := 65535
  const SIGNED_SHORT_MAX := 32767

  // writeShort stores the low sixteen bits, big-endian: the two bytes with that value.
  function Short16(n: int): (r: seq<byte>)
    ensures |r| == SHORT_BYTES && r[0] as int * 256 + r[1] as int == n % 65536
  {
    var bits := n % 65536;
    assert 0 <= bits / 256 < 256 && bits == bits / 256 * 256 + bits % 256;
    var high: byte, low: byte :| high as int * 256 + low as int == bits;
    [high, low]
  }

  // A length-prefixed section as written.
  function Section(content: seq<byte>): (r: seq<byte>)
    ensures |r| == SHORT_BYTES + |content|
  {
    Short16(|content|) + content
  }

  // getShort and readShort give a signed sixteen-bit value.
  function SignExtend(bits: int): int {
    if bits <= SIGNED_SHORT_MAX then bits else bits - 65536
  }

  // What a written n reads back as.
  function Signed(n: int): (r: int)
    ensures 0 <= n ==> r <= n
  {
    SignExtend(n % 65536)
  }

  function ShortAt(b: seq<byte>, offset: int): Result<int, Error> {
    if 0 <= offset && offset + SHORT_BYTES <= |b| then Ok(SignExtend(b[offset] as int * 256 + b[offset + 1] as int))
    else Err(IndexOutOfBounds)
  }

  function SliceAt(b: seq<byte>, offset: int, length: int): Result<seq<byte>, Error> {
    if 0 <= offset && 0 <= length && offset + length <= |b| then Ok(b[offset..offset + length])
    else Err(IndexOutOfBounds)
  }

  function TextAt(b: seq<byte>, offset: int, length: int): Result<string, Error> {
    var bytes :- SliceAt(b, offset, length);
    Ok(Decode(bytes))
  }

  function RequireUnsignedShort(i: int): Result<int, Error> {
    if i > UNSIGNED_SHORT_MAX then Err(IllegalArgument(i)) else Ok(i)
  }

  // A length written unsigned reads back as itself up to 32767, and as something smaller above.
  lemma SignedLength(n: nat)
    ensures Signed(n) == n <==> n <= SIGNED_SHORT_MAX
    ensures n > SIGNED_SHORT_MAX ==> Signed(n) < n
    ensures SIGNED_SHORT_MAX < n <= UNSIGNED_SHORT_MAX ==> Signed(n) == n - 65536
  {
  }

  // A short written at the end of `before` is read back, sign-extended.
  lemma ShortReadsBack(before: seq<byte>, n: int, after: seq<byte>)
    ensures ShortAt(before + Short16(n) + after, |before|) == Ok(Signed(n))
  {
  }

  lemma SliceReadsBack(before: seq<byte>, middle: seq<byte>, after: seq<byte>)
    ensures SliceAt(before + middle + after, |before|, |middle|) == Ok(middle)
  {
  }

  // And only what was written as a section reads as one: a length that is not negative, with as many
  // bytes behind it.
  lemma SectionIsThere(b: seq<byte>, offset: nat)
    requires ShortAt(b, offset).Ok? && SliceAt(b, offset + SHORT_BYTES, ShortAt(b, offset).value).Ok?
    ensures var content := SliceAt(b, offset + SHORT_BYTES, ShortAt(b, offset).value).value;
            && |content| <= SIGNED_SHORT_MAX && |content| == ShortAt(b, offset).value
            && b == b[..offset] + Section(content) + b[offset + SHORT_BYTES + |content|..]
  {
    var n := ShortAt(b, offset).value;
    SameShort(b[offset], b[offset + 1], n);
    assert b[offset..offset + SHORT_BYTES] == [b[offset], b[offset + 1]] == Short16(n);
    assert b == b[..offset] + (b[offset..offset + SHORT_BYTES] + b[offset + SHORT_BYTES..offset + SHORT_BYTES + n])
                + b[offset + SHORT_BYTES + n..];
  }

  lemma SameShort(high: byte, low: byte, n: int)
    requires 0 <= n <= SIGNED_SHORT_MAX && SignExtend(high as int * 256 + low as int) == n
    ensures [high, low] == Short16(n)
  {
    var r := Short16(n);
    assert r[0] as int * 256 + r[1] as int == high as int * 256 + low as int;
  }

  class ByteBuf {
    var bytes: seq<byte>
    var readerIndex: nat

    ghost predicate Valid()
      reads this
    {
      readerIndex <= |bytes|
    }

    constructor (content: seq<byte>)
      ensures Valid() && bytes == content && readerIndex == 0
    {
      bytes, readerIndex := content, 0;
    }

    function ReadableBytes(): int
      reads this
    {
      |bytes| - readerIndex
    }

    function Readable(): seq<byte>
      requires Valid()
      reads this
    {
      bytes[readerIndex..]
    }

    method WriteShort(n: int)
      modifies this`bytes
      ensures bytes == old(bytes) + Short16(n)
    {
      bytes := bytes + Short16(n);
    }

    // The reserve only sizes the buffer: the whole text is written.
    method ReserveAndWriteUtf8(text: string, reserve: nat)
      modifies this`bytes
      ensures bytes == old(bytes) + Encode(text)
    {
      bytes := bytes + Encode(text);
    }

    // Writes a text behind its length, which is computed and checked before anything is written.
    method WriteSection(text: string) returns (r: Result<(), Error>)
      modifies this`bytes
      ensures r == if |Encode(text)| <= UNSIGNED_SHORT_MAX then Ok(()) else Err(IllegalArgument(|Encode(text)|))
      ensures bytes == if r.Ok? then old(bytes) + Section(Encode(text)) else old(bytes)
    {
      Utf8BytesIsLength(text);
      var length :- RequireUnsignedShort(Utf8Bytes(text));
      WriteShort(length);
      ReserveAndWriteUtf8(text, length);
      r := Ok(());
    }

    // Writes the readable bytes of `src` and drains it.
    method WriteBytes(src: ByteBuf)
      requires src != this && src.Valid()
      modifies this`bytes, src`readerIndex
      ensures bytes == old(bytes) + old(src.Readable())
      ensures src.Valid() && src.readerIndex == |src.bytes|
    {
      bytes := bytes + src.Readable();
      src.readerIndex := |src.bytes|;
    }

    // Writes a range of `src` without moving its reader index.
    method WriteRange(src: ByteBuf, index: nat, length: nat)
      requires src != this && index + length <= |src.bytes|
      modifies this`bytes
      ensures bytes == old(bytes) + src.bytes[index..index + length]
    {
      bytes := bytes + src.bytes[index..index + length];
    }

    method ReadShort() returns (r: Result<int, Error>)
      requires Valid()
      modifies this`readerIndex
      ensures Valid()
      ensures r == ShortAt(bytes, old(readerIndex))
      ensures readerIndex == if r.Ok? then old(readerIndex) + SHORT_BYTES else old(readerIndex)
    {
      r := ShortAt(bytes, readerIndex);
      if r.Ok? {
        readerIndex := readerIndex + SHORT_BYTES;
      }
    }

    method ReadText(length: int) returns (r: Result<string, Error>)
      requires Valid()
      modifies this`readerIndex
      ensures Valid()
      ensures r == TextAt(bytes, old(readerIndex), length)
      ensures readerIndex == if r.Ok? then old(readerIndex) + length else old(readerIndex)
    {
      r := TextAt(bytes, readerIndex, length);
      if r.Ok? {
        readerIndex := readerIndex + length;
      }
    }
  }
}
