/**
 The metadata frame: version, then service, method and tracing, each behind a 16-bit length,
 then the user metadata up to the end. Lengths are written unsigned and read signed.
 */
module Frames {
  import opened Wrappers
  import opened Utf8
  import opened Buffers

  const VERSION := 1

  function Layout(a: seq<byte>, b: seq<byte>, c: seq<byte>, rest: seq<byte>): (frame: seq<byte>)
    ensures |frame| == 8 + |a| + |b| + |c| + |rest|
  {
    Short16(VERSION) + Section(a) + Section(b) + Section(c) + rest
  }

  function FrameBytes(service: string, meth: string, tracing: seq<byte>, metadata: seq<byte>): seq<byte> {
    Layout(Encode(service), Encode(meth), tracing, metadata)
  }

  datatype Field = Field(offset: int, length: int)

  // Where the k-th section's content lies, found by walking the length prefixes from the front.
  function FieldAt(frame: seq<byte>, k: nat): Result<Field, Error>
    decreases k, frame
  {
    if k == 0 then FieldFrom(frame, SHORT_BYTES)
    else
      var previous :- FieldAt(frame, k - 1);
      FieldFrom(frame, previous.offset + previous.length)
  }

  function FieldFrom(frame: seq<byte>, prefix: int): Result<Field, Error> {
    var length :- ShortAt(frame, prefix);
    Ok(Field(prefix + SHORT_BYTES, length))
  }

  function TextField(frame: seq<byte>, k: nat): Result<string, Error> {
    var field :- FieldAt(frame, k);
    TextAt(frame, field.offset, field.length)
  }

  function ServiceOf(frame: seq<byte>): Result<string, Error> {
    TextField(frame, 0)
  }

  function MethodOf(frame: seq<byte>): Result<string, Error> {
    TextField(frame, 1)
  }

  function TracingOf(frame: seq<byte>): Result<seq<byte>, Error> {
    var field :- FieldAt(frame, 2);
    PositiveSlice(frame, field.offset, field.length)
  }

  // The length of the user metadata is taken from the readable bytes, its offset from byte 0.
  function MetadataOf(frame: seq<byte>, readerIndex: nat): Result<seq<byte>, Error> {
    var field :- FieldAt(frame, 2);
    var offset := field.offset + field.length;
    PositiveSlice(frame, offset, |frame| - readerIndex - offset)
  }

  // A length that is not positive gives the empty buffer, wherever it is taken from.
  function PositiveSlice(frame: seq<byte>, offset: int, length: int): Result<seq<byte>, Error> {
    if length > 0 then SliceAt(frame, offset, length) else Ok([])
  }

  // What the tracing getter makes of a section whose written length is sign-extended.
  function Cut(c: seq<byte>): seq<byte> {
    if Signed(|c|) > 0 then c[..Signed(|c|)] else []
  }

  // The bytes from `offset` on, without the last r; an offset before the frame fails.
  function FromOffset(frame: seq<byte>, offset: int, r: nat): Result<seq<byte>, Error> {
    if offset < 0 then Err(IndexOutOfBounds)
    else if offset + r <= |frame| then Ok(frame[offset..|frame| - r])
    else Ok([])
  }

  // A field that cannot be found hides the fields behind it.
  lemma FieldsFailForward(frame: seq<byte>)
    ensures FieldAt(frame, 0).Err? ==> FieldAt(frame, 1) == FieldAt(frame, 0)
    ensures FieldAt(frame, 1).Err? ==> FieldAt(frame, 2) == FieldAt(frame, 1)
  {
  }

  lemma FieldFailure(frame: seq<byte>)
    ensures FieldAt(frame, 2).Err? ==> FieldAt(frame, 2).error == IndexOutOfBounds
  {
    FieldsFailForward(frame);
  }

  method Encode4(service: string, meth: string, metadata: ByteBuf) returns (r: Result<ByteBuf, Error>)
    requires metadata.Valid()
    ensures r.Ok? <==> |Encode(service)| <= UNSIGNED_SHORT_MAX && |Encode(meth)| <= UNSIGNED_SHORT_MAX
    ensures r.Err? ==> r.error == IllegalArgument(if |Encode(service)| > UNSIGNED_SHORT_MAX then |Encode(service)|
                                                  else |Encode(meth)|)
    ensures r.Ok? ==> fresh(r.value) && r.value.readerIndex == 0
    ensures r.Ok? ==> r.value.bytes == FrameBytes(service, meth, [], metadata.Readable())
  {
    var empty := new ByteBuf([]);
    r := EncodeFrame(service, meth, empty, metadata);
  }

  // The tracing buffer is drained, before the metadata buffer is looked at; the metadata buffer
  // is only read. A text of more than 65535 bytes is refused before tracing is touched.
  method EncodeFrame(service: string, meth: string, tracing: ByteBuf, metadata: ByteBuf)
    returns (r: Result<ByteBuf, Error>)
    requires tracing.Valid() && metadata.Valid()
    modifies tracing`readerIndex
    ensures r.Ok? <==> |Encode(service)| <= UNSIGNED_SHORT_MAX && |Encode(meth)| <= UNSIGNED_SHORT_MAX
    ensures r.Err? ==> r.error == IllegalArgument(if |Encode(service)| > UNSIGNED_SHORT_MAX then |Encode(service)|
                                                  else |Encode(meth)|)
    ensures r.Ok? ==> fresh(r.value) && r.value.readerIndex == 0
    ensures r.Ok? ==> r.value.bytes == FrameBytes(service, meth, old(tracing.Readable()),
                                                  if metadata == tracing then [] else old(metadata.Readable()))
    ensures tracing.readerIndex == if r.Ok? then |tracing.bytes| else old(tracing.readerIndex)
  {
    var byteBuf := new ByteBuf([]);
    byteBuf.WriteShort(VERSION);
    ghost var b0 := byteBuf.bytes;
    var _ :- byteBuf.WriteSection(service);
    var _ :- byteBuf.WriteSection(meth);
    ghost var b2 := byteBuf.bytes;
    WriteBuffers(byteBuf, tracing, metadata);
    Assemble(Short16(VERSION), Section(Encode(service)), Section(Encode(meth)), Section(old(tracing.Readable())),
             if metadata == tracing then [] else old(metadata.Readable()), b0, b2, byteBuf.bytes);
    return Ok(byteBuf);
  }

  // The two buffers behind the texts.
  method WriteBuffers(byteBuf: ByteBuf, tracing: ByteBuf, metadata: ByteBuf)
    requires tracing.Valid() && metadata.Valid() && byteBuf != tracing && byteBuf != metadata
    modifies byteBuf`bytes, tracing`readerIndex
    ensures byteBuf.bytes == old(byteBuf.bytes) + Section(old(tracing.Readable()))
                             + if metadata == tracing then [] else old(metadata.Readable())
    ensures tracing.readerIndex == |tracing.bytes|
  {
    byteBuf.WriteShort(tracing.ReadableBytes());
    byteBuf.WriteBytes(tracing);
    assert byteBuf.bytes == old(byteBuf.bytes) + Section(old(tracing.Readable()));
    byteBuf.WriteRange(metadata, metadata.readerIndex, metadata.ReadableBytes());
  }

  lemma Assemble(v: seq<byte>, x: seq<byte>, y: seq<byte>, z: seq<byte>, w: seq<byte>,
                 b0: seq<byte>, b2: seq<byte>, b5: seq<byte>)
    requires b0 == [] + v && b2 == b0 + x + y && b5 == b2 + z + w
    ensures b5 == v + x + y + z + w
  {
  }

  // The first two bytes without the sign bit, which the source masks off after sign extension.
  method GetVersion(byteBuf: ByteBuf) returns (r: Result<int, Error>)
    ensures r == if |byteBuf.bytes| < SHORT_BYTES then Err(IndexOutOfBounds)
                 else Ok(byteBuf.bytes[0] as int % 128 * 256 + byteBuf.bytes[1] as int)
  {
    var version :- ShortAt(byteBuf.bytes, 0);
    return Ok(version % 32768);
  }

  method GetService(byteBuf: ByteBuf) returns (r: Result<string, Error>)
    ensures r == ServiceOf(byteBuf.bytes)
  {
    var offset := SHORT_BYTES;
    var serviceLength :- ShortAt(byteBuf.bytes, offset);
    offset := offset + SHORT_BYTES;
    return TextAt(byteBuf.bytes, offset, serviceLength);
  }

  method GetMethod(byteBuf: ByteBuf) returns (r: Result<string, Error>)
    ensures r == MethodOf(byteBuf.bytes)
  {
    var offset := SHORT_BYTES;
    FieldsFailForward(byteBuf.bytes);
    var serviceLength :- ShortAt(byteBuf.bytes, offset);
    offset := offset + SHORT_BYTES + serviceLength;
    assert FieldAt(byteBuf.bytes, 0) == Ok(Field(4, serviceLength));
    var methodLength :- ShortAt(byteBuf.bytes, offset);
    offset := offset + SHORT_BYTES;
    return TextAt(byteBuf.bytes, offset, methodLength);
  }

  // A slice has a reader index of its own, so reading it leaves the frame as it was.
  method GetTracing(byteBuf: ByteBuf) returns (r: Result<ByteBuf, Error>)
    ensures r.Ok? <==> TracingOf(byteBuf.bytes).Ok?
    ensures r.Ok? ==> fresh(r.value) && r.value.readerIndex == 0 && r.value.bytes == TracingOf(byteBuf.bytes).value
    ensures r.Err? ==> r.error == TracingOf(byteBuf.bytes).error
  {
    var offset := SHORT_BYTES;
    FieldsFailForward(byteBuf.bytes);
    var serviceLength :- ShortAt(byteBuf.bytes, offset);
    offset := offset + SHORT_BYTES + serviceLength;
    assert FieldAt(byteBuf.bytes, 0) == Ok(Field(4, serviceLength));
    var methodLength :- ShortAt(byteBuf.bytes, offset);
    offset := offset + SHORT_BYTES + methodLength;
    assert FieldAt(byteBuf.bytes, 1) == Ok(Field(6 + serviceLength, methodLength));
    var tracingLength :- ShortAt(byteBuf.bytes, offset);
    offset := offset + SHORT_BYTES;
    var content: seq<byte> := [];
    if tracingLength > 0 {
      content :- SliceAt(byteBuf.bytes, offset, tracingLength);
    }
    var slice := new ByteBuf(content);
    return Ok(slice);
  }

  method GetMetadata(byteBuf: ByteBuf) returns (r: Result<ByteBuf, Error>)
    requires byteBuf.Valid()
    ensures r.Ok? <==> MetadataOf(byteBuf.bytes, byteBuf.readerIndex).Ok?
    ensures r.Ok? ==> fresh(r.value) && r.value.readerIndex == 0
                      && r.value.bytes == MetadataOf(byteBuf.bytes, byteBuf.readerIndex).value
    ensures r.Err? ==> r.error == MetadataOf(byteBuf.bytes, byteBuf.readerIndex).error
  {
    var offset := SHORT_BYTES;
    FieldsFailForward(byteBuf.bytes);
    var serviceLength :- ShortAt(byteBuf.bytes, offset);
    offset := offset + SHORT_BYTES + serviceLength;
    assert FieldAt(byteBuf.bytes, 0) == Ok(Field(4, serviceLength));
    var methodLength :- ShortAt(byteBuf.bytes, offset);
    offset := offset + SHORT_BYTES + methodLength;
    assert FieldAt(byteBuf.bytes, 1) == Ok(Field(6 + serviceLength, methodLength));
    var tracingLength :- ShortAt(byteBuf.bytes, offset);
    offset := offset + SHORT_BYTES + tracingLength;
    var metadataLength := byteBuf.ReadableBytes() - offset;
    var content: seq<byte> := [];
    if metadataLength > 0 {
      content :- SliceAt(byteBuf.bytes, offset, metadataLength);
    }
    var slice := new ByteBuf(content);
    return Ok(slice);
  }

  // The k-th section of any frame, once the fields before it lead to where it starts: it is found
  // there, its length sign-extended.
  lemma SectionReadsBack(frame: seq<byte>, k: nat, before: seq<byte>, content: seq<byte>, after: seq<byte>)
    requires frame == before + Section(content) + after
    requires k == 0 ==> |before| == SHORT_BYTES
    requires k > 0 ==> var r := FieldAt(frame, k - 1); r.Ok? && r.value.offset + r.value.length == |before|
    ensures FieldAt(frame, k) == Ok(Field(|before| + SHORT_BYTES, Signed(|content|)))
    ensures SliceAt(frame, |before| + SHORT_BYTES, |content|) == Ok(content)
  {
    SectionInside(before, Short16(|content|), content, after);
    ShortReadsBack(before, |content|, content + after);
    SliceReadsBack(before + Short16(|content|), content, after);
  }

  lemma SectionInside(before: seq<byte>, prefix: seq<byte>, content: seq<byte>, after: seq<byte>)
    ensures before + (prefix + content) + after == before + prefix + (content + after)
    ensures before + (prefix + content) + after == before + prefix + content + after
  {
  }

  lemma Regroup(v: seq<byte>, x: seq<byte>, y: seq<byte>, z: seq<byte>, w: seq<byte>)
    ensures v + x + y + z + w == v + x + (y + z + w)
    ensures v + x + y + z + w == (v + x) + y + (z + w)
    ensures (v + x + y + z + w)[|v| + |x| + |y| + |z|..] == w
  {
  }

  // The three sections and the rest partition the frame, in order and without gaps, as long as
  // the lengths before a section read back.
  lemma FirstSection(a: seq<byte>, b: seq<byte>, c: seq<byte>, rest: seq<byte>)
    ensures var frame := Layout(a, b, c, rest);
            && FieldAt(frame, 0) == Ok(Field(4, Signed(|a|)))
            && SliceAt(frame, 4, |a|) == Ok(a)
  {
    var v := Short16(VERSION);
    Regroup(v, Section(a), Section(b), Section(c), rest);
    SectionReadsBack(Layout(a, b, c, rest), 0, v, a, Section(b) + Section(c) + rest);
  }

  lemma SecondSection(a: seq<byte>, b: seq<byte>, c: seq<byte>, rest: seq<byte>)
    requires |a| <= SIGNED_SHORT_MAX
    ensures var frame := Layout(a, b, c, rest);
            && FieldAt(frame, 1) == Ok(Field(6 + |a|, Signed(|b|)))
            && SliceAt(frame, 6 + |a|, |b|) == Ok(b)
  {
    var v := Short16(VERSION);
    FirstSection(a, b, c, rest);
    Regroup(v, Section(a), Section(b), Section(c), rest);
    SectionReadsBack(Layout(a, b, c, rest), 1, v + Section(a), b, Section(c) + rest);
  }

  lemma ThirdSection(a: seq<byte>, b: seq<byte>, c: seq<byte>, rest: seq<byte>)
    requires |a| <= SIGNED_SHORT_MAX && |b| <= SIGNED_SHORT_MAX
    ensures var frame := Layout(a, b, c, rest);
            && FieldAt(frame, 2) == Ok(Field(8 + |a| + |b|, Signed(|c|)))
            && SliceAt(frame, 8 + |a| + |b|, |c|) == Ok(c)
            && frame[8 + |a| + |b| + |c|..] == rest
  {
    var v := Short16(VERSION);
    SecondSection(a, b, c, rest);
    Regroup(v, Section(a), Section(b), Section(c), rest);
    SectionReadsBack(Layout(a, b, c, rest), 2, v + Section(a) + Section(b), c, rest);
  }

  // On any frame, received from anyone: where the three fields are found with lengths that are not
  // negative and inside the frame, they partition it, as they do a frame that was encoded.
  lemma FieldsPartitionFrame(frame: seq<byte>)
    requires FieldAt(frame, 0).Ok? && FieldAt(frame, 0).value.length >= 0
    requires FieldAt(frame, 1).Ok? && FieldAt(frame, 1).value.length >= 0
    requires FieldAt(frame, 2).Ok? && FieldAt(frame, 2).value.length >= 0 && FieldEnd(frame, 2) <= |frame|
    ensures frame == frame[..SHORT_BYTES] + Section(Content(frame, 0)) + Section(Content(frame, 1))
                     + Section(Content(frame, 2)) + frame[FieldEnd(frame, 2)..]
  {
    SectionOfField(frame, 0, SHORT_BYTES);
    SectionOfField(frame, 1, FieldEnd(frame, 0));
    SectionOfField(frame, 2, FieldEnd(frame, 1));
    JoinParts(frame, frame[..FieldEnd(frame, 1)], FieldEnd(frame, 2), Section(Content(frame, 2)));
  }

  lemma JoinParts(frame: seq<byte>, before: seq<byte>, end: nat, last: seq<byte>)
    requires end <= |frame| && frame[..end] == before + last
    ensures frame == before + last + frame[end..]
  {
  }

  function FieldEnd(frame: seq<byte>, k: nat): int
    requires FieldAt(frame, k).Ok?
  {
    FieldAt(frame, k).value.offset + FieldAt(frame, k).value.length
  }

  function Content(frame: seq<byte>, k: nat): seq<byte>
    requires FieldAt(frame, k).Ok? && 0 <= FieldAt(frame, k).value.offset <= FieldEnd(frame, k) <= |frame|
  {
    frame[FieldAt(frame, k).value.offset..FieldEnd(frame, k)]
  }

  lemma SectionOfField(frame: seq<byte>, k: nat, prefix: nat)
    requires FieldAt(frame, k).Ok? && FieldAt(frame, k) == FieldFrom(frame, prefix)
    requires 0 <= FieldAt(frame, k).value.length && FieldEnd(frame, k) <= |frame|
    ensures frame[..FieldEnd(frame, k)] == frame[..prefix] + Section(Content(frame, k))
  {
    SectionIsThere(frame, prefix);
    TakeBoth(frame[..prefix] + Section(Content(frame, k)), frame[FieldEnd(frame, k)..], frame);
  }

  lemma TakeBoth(x: seq<byte>, y: seq<byte>, z: seq<byte>)
    requires z == x + y
    ensures z[..|x|] == x
  {
  }

  // What the getters make of a section, for any frame and whatever length it was found with.
  lemma TextReadsBack(frame: seq<byte>, k: nat, field: Field, bytes: seq<byte>)
    requires FieldAt(frame, k) == Ok(field)
    requires SliceAt(frame, field.offset, |bytes|) == Ok(bytes)
    requires field.length < 0 || field.length == |bytes|
    ensures TextField(frame, k) == if field.length < 0 then Err(IndexOutOfBounds) else Ok(Decode(bytes))
  {
  }

  lemma TracingReadsBack(a: seq<byte>, b: seq<byte>, c: seq<byte>, rest: seq<byte>)
    requires |a| <= SIGNED_SHORT_MAX && |b| <= SIGNED_SHORT_MAX
    ensures TracingOf(Layout(a, b, c, rest)) == Ok(Cut(c))
  {
    ThirdSection(a, b, c, rest);
    SliceStart(Layout(a, b, c, rest), 8 + |a| + |b|, c, Signed(|c|));
  }

  lemma SliceStart(frame: seq<byte>, offset: nat, c: seq<byte>, n: int)
    requires SliceAt(frame, offset, |c|) == Ok(c) && n <= |c|
    ensures PositiveSlice(frame, offset, n) == if n > 0 then Ok(c[..n]) else Ok([])
  {
    if n > 0 {
      assert frame[offset..offset + |c|][..n] == frame[offset..offset + n];
    }
  }

  lemma CutKeeps(c: seq<byte>)
    ensures Cut(c) == c <==> |c| <= SIGNED_SHORT_MAX
  {
    SignedLength(|c|);
    assert c[..|c|] == c;
  }

  // The metadata getter takes all from behind the third section, wherever it was found.
  lemma MetadataReadsBack(frame: seq<byte>, field: Field, r: nat)
    requires FieldAt(frame, 2) == Ok(field) && r <= |frame|
    ensures MetadataOf(frame, r) == FromOffset(frame, field.offset + field.length, r)
  {
    UpToTheReader(frame, field.offset + field.length, r);
  }

  lemma UpToTheReader(frame: seq<byte>, offset: int, r: nat)
    requires r <= |frame|
    ensures PositiveSlice(frame, offset, |frame| - r - offset) == FromOffset(frame, offset, r)
  {
    var n := |frame| - r - offset;
    assert offset + n == |frame| - r;
    if offset >= 0 && n == 0 {
      assert frame[offset..offset] == [];
    }
  }

  lemma VersionRoundTrip(service: string, meth: string, tracing: seq<byte>, metadata: seq<byte>)
    ensures var frame := FrameBytes(service, meth, tracing, metadata);
            |frame| >= SHORT_BYTES && frame[0] as int % 128 * 256 + frame[1] as int == VERSION
  {
  }

  // Every service that encode accepts comes back if and only if it fits a signed length.
  lemma ServiceRoundTrip(service: string, meth: string, tracing: seq<byte>, metadata: seq<byte>)
    requires |Encode(service)| <= UNSIGNED_SHORT_MAX
    ensures ServiceOf(FrameBytes(service, meth, tracing, metadata)) ==
            if |Encode(service)| <= SIGNED_SHORT_MAX then Ok(service) else Err(IndexOutOfBounds)
  {
    var a := Encode(service);
    FirstSection(a, Encode(meth), tracing, metadata);
    SignedLength(|a|);
    TextReadsBack(FrameBytes(service, meth, tracing, metadata), 0, Field(4, Signed(|a|)), a);
    RoundTrip(service);
  }

  lemma MethodRoundTrip(service: string, meth: string, tracing: seq<byte>, metadata: seq<byte>)
    requires |Encode(service)| <= SIGNED_SHORT_MAX && |Encode(meth)| <= UNSIGNED_SHORT_MAX
    ensures MethodOf(FrameBytes(service, meth, tracing, metadata)) ==
            if |Encode(meth)| <= SIGNED_SHORT_MAX then Ok(meth) else Err(IndexOutOfBounds)
  {
    var a, b := Encode(service), Encode(meth);
    SecondSection(a, b, tracing, metadata);
    SignedLength(|b|);
    TextReadsBack(FrameBytes(service, meth, tracing, metadata), 1, Field(6 + |a|, Signed(|b|)), b);
    RoundTrip(meth);
  }

  // Whether both text lengths read back as they were written.
  predicate TextsFit(s: nat, m: nat) {
    s <= SIGNED_SHORT_MAX && m <= SIGNED_SHORT_MAX
  }

  // The text lengths that lead to a length prefix read out of the bytes before the third section.
  predicate Misread(s: nat, m: nat) {
    s == 65533 || (s <= SIGNED_SHORT_MAX < m && s + m >= 65530)
  }

  function MisreadPrefix(s: nat, m: nat): nat
    requires Misread(s, m)
  {
    if s == 65533 then 514 else s + m - 65530
  }

  // The bytes taken for a tracing section.
  function MisreadTracing(frame: seq<byte>, s: nat, m: nat): Result<seq<byte>, Error>
    requires Misread(s, m)
  {
    var length :- ShortAt(frame, MisreadPrefix(s, m));
    PositiveSlice(frame, MisreadPrefix(s, m) + SHORT_BYTES, length)
  }

  // What the tracing and metadata getters give behind texts of s and m bytes that do not fit.
  // Mostly they fail; where they do not, they take a length from the version, from a length or out
  // of a text or section before them.
  predicate MisreadBuffers(frame: seq<byte>, s: nat, m: nat, r: nat) {
    var tracing, metadata := TracingOf(frame), MetadataOf(frame, r);
    if Misread(s, m) then
      && tracing == MisreadTracing(frame, s, m)
      && ShortAt(frame, MisreadPrefix(s, m)).Ok?
      && var length := ShortAt(frame, MisreadPrefix(s, m)).value;
         metadata == FromOffset(frame, MisreadPrefix(s, m) + SHORT_BYTES + length, r)
    else if s == 65532 then tracing == Ok([]) && metadata == Err(IndexOutOfBounds)
    else if s == 65534 then tracing == Ok([]) && metadata == FromOffset(frame, 2, r)
    else tracing == metadata == Err(IndexOutOfBounds)
  }

  // The tracing section comes back cut, and whole if and only if its length fits a signed short.
  // Behind a text that does not fit, an empty section may still seem to come back.
  lemma TracingRoundTrip(service: string, meth: string, tracing: seq<byte>, metadata: seq<byte>)
    requires |Encode(service)| <= UNSIGNED_SHORT_MAX && |Encode(meth)| <= UNSIGNED_SHORT_MAX
    ensures var frame := FrameBytes(service, meth, tracing, metadata);
            var s, m, got := |Encode(service)|, |Encode(meth)|, TracingOf(frame);
            if TextsFit(s, m) then got == Ok(Cut(tracing)) && (got == Ok(tracing) <==> |tracing| <= SIGNED_SHORT_MAX)
            else
              && MisreadBuffers(frame, s, m, 0)
              && (!Misread(s, m) ==> (got == Ok(tracing) <==> tracing == [] && (s == 65532 || s == 65534)))
  {
    if TextsFit(|Encode(service)|, |Encode(meth)|) {
      TracingReadsBack(Encode(service), Encode(meth), tracing, metadata);
      CutKeeps(tracing);
    } else {
      BuffersBehindLongTexts(service, meth, tracing, metadata, 0);
    }
  }

  // For all texts that encode accepts: from reader index 0 the user metadata comes back if and
  // only if all three lengths before it fit a signed short.
  lemma MetadataRoundTrip(service: string, meth: string, tracing: seq<byte>, metadata: seq<byte>)
    requires |Encode(service)| <= UNSIGNED_SHORT_MAX && |Encode(meth)| <= UNSIGNED_SHORT_MAX
    ensures MetadataOf(FrameBytes(service, meth, tracing, metadata), 0) == Ok(metadata) <==>
            |Encode(service)| <= SIGNED_SHORT_MAX && |Encode(meth)| <= SIGNED_SHORT_MAX && |tracing| <= SIGNED_SHORT_MAX
  {
    var a, b := Encode(service), Encode(meth);
    if a != [] {
      LeadByte(service);
    }
    MetadataAtOffset(a, b, tracing, metadata);
  }

  lemma MetadataAtOffset(a: seq<byte>, b: seq<byte>, c: seq<byte>, rest: seq<byte>)
    requires |a| <= UNSIGNED_SHORT_MAX && |b| <= UNSIGNED_SHORT_MAX && (a != [] ==> a[0] <= 0xF4)
    ensures MetadataOf(Layout(a, b, c, rest), 0) == Ok(rest) <==>
            |a| <= SIGNED_SHORT_MAX && |b| <= SIGNED_SHORT_MAX && |c| <= SIGNED_SHORT_MAX
  {
    var frame := Layout(a, b, c, rest);
    EndOfLayout(a, b, c, rest);
    if TextsFit(|a|, |b|) {
      ThirdSection(a, b, c, rest);
      SignedLength(|c|);
      MetadataAtField(frame, Field(8 + |a| + |b|, Signed(|c|)), rest);
    } else {
      ThirdField(a, b, c, rest);
      var field := FieldAt(frame, 2);
      if field.Ok? {
        FieldBeforeEnd(a, b, c, rest);
        MetadataAtField(frame, field.value, rest);
      }
    }
  }

  lemma EndOfLayout(a: seq<byte>, b: seq<byte>, c: seq<byte>, rest: seq<byte>)
    ensures var frame := Layout(a, b, c, rest);
            |frame| - |rest| == 8 + |a| + |b| + |c| && frame[|frame| - |rest|..] == rest
  {
    Regroup(Short16(VERSION), Section(a), Section(b), Section(c), rest);
  }

  // A third field found behind texts that do not fit ends before the metadata.
  lemma FieldBeforeEnd(a: seq<byte>, b: seq<byte>, c: seq<byte>, rest: seq<byte>)
    requires |a| <= UNSIGNED_SHORT_MAX && |b| <= UNSIGNED_SHORT_MAX && (a != [] ==> a[0] <= 0xF4)
    requires !TextsFit(|a|, |b|) && FieldAt(Layout(a, b, c, rest), 2).Ok?
    ensures var field := FieldAt(Layout(a, b, c, rest), 2).value;
            field.offset + field.length < 8 + |a| + |b| + |c|
  {
    ThirdField(a, b, c, rest);
  }

  lemma MetadataAtField(frame: seq<byte>, field: Field, rest: seq<byte>)
    requires FieldAt(frame, 2) == Ok(field)
    requires |rest| <= |frame| && frame[|frame| - |rest|..] == rest
    requires field.offset + field.length <= |frame| - |rest|
    ensures MetadataOf(frame, 0) == Ok(rest) <==> field.offset + field.length == |frame| - |rest|
  {
    MetadataReadsBack(frame, field, 0);
    OffsetDecides(frame, field.offset + field.length, rest);
  }

  lemma OffsetDecides(frame: seq<byte>, offset: int, rest: seq<byte>)
    requires |rest| <= |frame| && frame[|frame| - |rest|..] == rest && offset <= |frame| - |rest|
    ensures FromOffset(frame, offset, 0) == Ok(rest) <==> offset == |frame| - |rest|
  {
    if 0 <= offset {
      assert frame[offset..|frame| - 0] == frame[offset..];
    }
  }

  // A reader index moved by r loses the last r bytes, whatever the length of the tracing section;
  // an oversized section shifts the start as well. So a frame that has been read from gives its
  // metadata back only if there was none.
  lemma MetadataFromMovedReader(service: string, meth: string, tracing: seq<byte>, metadata: seq<byte>, r: nat)
    requires |Encode(service)| <= UNSIGNED_SHORT_MAX && |Encode(meth)| <= UNSIGNED_SHORT_MAX
    requires r <= |FrameBytes(service, meth, tracing, metadata)|
    ensures var frame := FrameBytes(service, meth, tracing, metadata);
            var s, m, got := |Encode(service)|, |Encode(meth)|, MetadataOf(frame, r);
            if TextsFit(s, m) then
              && got == FromOffset(frame, 8 + s + m + Signed(|tracing|), r)
              && (|tracing| <= SIGNED_SHORT_MAX ==>
                    && got == Ok(metadata[..if r <= |metadata| then |metadata| - r else 0])
                    && (got == Ok(metadata) <==> r == 0 || metadata == []))
            else MisreadBuffers(frame, s, m, r)
  {
    if TextsFit(|Encode(service)|, |Encode(meth)|) {
      MetadataBehindTracing(Encode(service), Encode(meth), tracing, metadata, r);
    } else {
      BuffersBehindLongTexts(service, meth, tracing, metadata, r);
    }
  }

  lemma MetadataBehindTracing(a: seq<byte>, b: seq<byte>, c: seq<byte>, rest: seq<byte>, r: nat)
    requires |a| <= SIGNED_SHORT_MAX && |b| <= SIGNED_SHORT_MAX && r <= |Layout(a, b, c, rest)|
    ensures var got := MetadataOf(Layout(a, b, c, rest), r);
            && got == FromOffset(Layout(a, b, c, rest), 8 + |a| + |b| + Signed(|c|), r)
            && (|c| <= SIGNED_SHORT_MAX ==>
                  && got == Ok(rest[..if r <= |rest| then |rest| - r else 0])
                  && (got == Ok(rest) <==> r == 0 || rest == []))
  {
    var frame := Layout(a, b, c, rest);
    ThirdSection(a, b, c, rest);
    MetadataReadsBack(frame, Field(8 + |a| + |b|, Signed(|c|)), r);
    if |c| <= SIGNED_SHORT_MAX {
      EndBehindTracing(frame, |a|, |b|, |c|, rest, r) by {
        EndOfLayout(a, b, c, rest);
      }
    }
  }

  lemma EndBehindTracing(frame: seq<byte>, a: nat, b: nat, c: nat, rest: seq<byte>, r: nat)
    requires c <= SIGNED_SHORT_MAX && |frame| - |rest| == 8 + a + b + c && frame[8 + a + b + c..] == rest
    requires r <= |frame|
    ensures var got := FromOffset(frame, 8 + a + b + Signed(c), r);
            && got == Ok(rest[..if r <= |rest| then |rest| - r else 0])
            && (got == Ok(rest) <==> r == 0 || rest == [])
  {
    SignedLength(c);
    EndOfFrame(frame, rest, r);
  }

  lemma EndOfFrame(frame: seq<byte>, rest: seq<byte>, r: nat)
    requires |rest| <= |frame| && frame[|frame| - |rest|..] == rest && r <= |frame|
    ensures var got := FromOffset(frame, |frame| - |rest|, r);
            && got == Ok(rest[..if r <= |rest| then |rest| - r else 0])
            && (got == Ok(rest) <==> r == 0 || rest == [])
  {
    var kept := if r <= |rest| then |rest| - r else 0;
    assert |rest[..kept]| == kept && rest[..|rest|] == rest;
    if r <= |rest| {
      assert frame[|frame| - |rest|..|frame| - r] == rest[..|rest| - r];
    }
  }

  // ---------- behind texts of 32768 to 65535 bytes ----------

  // Behind such a service the method is not just lost. The getter lands in the frame's first
  // bytes: mostly it fails, but at 65532 bytes it takes the version for a length and answers with
  // the first byte of the service length, and at 65533 with 511 bytes from there.
  lemma MethodBehindLongService(service: string, meth: string, tracing: seq<byte>, metadata: seq<byte>)
    requires SIGNED_SHORT_MAX < |Encode(service)| <= UNSIGNED_SHORT_MAX
    ensures var n := |Encode(service)|;
            MethodOf(FrameBytes(service, meth, tracing, metadata)) ==
            if n == 65532 then Ok([REPLACEMENT])
            else if n == 65533 then Ok(Decode([0xFD] + Encode(service)[..510]))
            else Err(IndexOutOfBounds)
  {
    var a := Encode(service);
    var frame := FrameBytes(service, meth, tracing, metadata);
    SecondField(a, Encode(meth), tracing, metadata);
    if |a| >= 65532 {
      FrameStart(a, Encode(meth), tracing, metadata);
      FirstBytes(frame, a);
      if |a| == 65532 {
        MethodIsVersion(frame);
      } else {
        MethodInHeader(frame, |a| - 65532);
      }
    }
  }

  // What the tracing and metadata getters give behind such a service or method.
  lemma BuffersBehindLongTexts(service: string, meth: string, tracing: seq<byte>, metadata: seq<byte>, r: nat)
    requires |Encode(service)| <= UNSIGNED_SHORT_MAX && |Encode(meth)| <= UNSIGNED_SHORT_MAX
    requires !TextsFit(|Encode(service)|, |Encode(meth)|)
    requires r <= |FrameBytes(service, meth, tracing, metadata)|
    ensures MisreadBuffers(FrameBytes(service, meth, tracing, metadata), |Encode(service)|, |Encode(meth)|, r)
  {
    var a, b := Encode(service), Encode(meth);
    if a != [] {
      LeadByte(service);
    }
    BuffersBehindLongBytes(a, b, tracing, metadata, r);
  }

  lemma BuffersBehindLongBytes(a: seq<byte>, b: seq<byte>, c: seq<byte>, rest: seq<byte>, r: nat)
    requires |a| <= UNSIGNED_SHORT_MAX && |b| <= UNSIGNED_SHORT_MAX && (a != [] ==> a[0] <= 0xF4)
    requires !TextsFit(|a|, |b|)
    requires r <= |Layout(a, b, c, rest)|
    ensures MisreadBuffers(Layout(a, b, c, rest), |a|, |b|, r)
  {
    ThirdField(a, b, c, rest);
    MisreadFromField(Layout(a, b, c, rest), |a|, |b|, if a == [] then 0 else a[0], r);
  }

  lemma MisreadFromField(frame: seq<byte>, s: nat, m: nat, first: byte, r: nat)
    requires s <= UNSIGNED_SHORT_MAX && m <= UNSIGNED_SHORT_MAX && first <= 0xF4
    requires !TextsFit(s, m) && s + m + 8 <= |frame| && r <= |frame|
    requires FieldAt(frame, 2) ==
             if s <= SIGNED_SHORT_MAX then FieldFrom(frame, s + m - 65530)
             else if s == 65532 then Ok(Field(5, first as int - 1024))
             else if s == 65533 then FieldFrom(frame, 514)
             else if s == 65534 then Ok(Field(4, -2))
             else Err(IndexOutOfBounds)
    ensures MisreadBuffers(frame, s, m, r)
  {
    if FieldAt(frame, 2).Ok? {
      MetadataReadsBack(frame, FieldAt(frame, 2).value, r);
    }
  }

  // Where the second field is taken from behind a long service, and the third behind any text
  // that is too long.
  lemma SecondField(a: seq<byte>, b: seq<byte>, c: seq<byte>, rest: seq<byte>)
    requires SIGNED_SHORT_MAX < |a| <= UNSIGNED_SHORT_MAX
    ensures var frame := Layout(a, b, c, rest);
            FieldAt(frame, 1) == FieldFrom(frame, |a| - 65532)
  {
    FirstSection(a, b, c, rest);
    SignedLength(|a|);
    NextField(Layout(a, b, c, rest), 0, Field(4, |a| - 65536));
  }

  lemma ThirdField(a: seq<byte>, b: seq<byte>, c: seq<byte>, rest: seq<byte>)
    requires |a| <= UNSIGNED_SHORT_MAX && |b| <= UNSIGNED_SHORT_MAX && (a != [] ==> a[0] <= 0xF4)
    requires !TextsFit(|a|, |b|)
    ensures var frame := Layout(a, b, c, rest);
            FieldAt(frame, 2) ==
            if |a| <= SIGNED_SHORT_MAX then FieldFrom(frame, |a| + |b| - 65530)
            else if |a| == 65532 then Ok(Field(5, a[0] as int - 1024))
            else if |a| == 65533 then FieldFrom(frame, 514)
            else if |a| == 65534 then Ok(Field(4, -2))
            else Err(IndexOutOfBounds)
  {
    if |a| <= SIGNED_SHORT_MAX {
      FieldBehindLongMethod(a, b, c, rest);
    } else {
      SecondField(a, b, c, rest);
      if |a| >= 65532 {
        FrameStart(a, b, c, rest);
        FirstBytes(Layout(a, b, c, rest), a);
        FieldBehindHeader(Layout(a, b, c, rest), |a| - 65532);
      } else {
        FieldsFailForward(Layout(a, b, c, rest));
      }
    }
  }

  lemma FieldBehindLongMethod(a: seq<byte>, b: seq<byte>, c: seq<byte>, rest: seq<byte>)
    requires |a| <= SIGNED_SHORT_MAX < |b| <= UNSIGNED_SHORT_MAX
    ensures FieldAt(Layout(a, b, c, rest), 2) == FieldFrom(Layout(a, b, c, rest), |a| + |b| - 65530)
  {
    SecondSection(a, b, c, rest);
    SignedLength(|b|);
    NextField(Layout(a, b, c, rest), 1, Field(6 + |a|, |b| - 65536));
  }

  lemma FieldBehindHeader(frame: seq<byte>, prefix: nat)
    requires prefix <= 3 && |frame| > 65535
    requires frame[0] == 0 && frame[1] == 1 && frame[2] == 0xFF && frame[3] as int == 252 + prefix && frame[4] <= 0xF4
    requires FieldAt(frame, 1) == FieldFrom(frame, prefix)
    ensures FieldAt(frame, 2) == if prefix == 0 then Ok(Field(5, frame[4] as int - 1024))
                                 else if prefix == 1 then FieldFrom(frame, 514)
                                 else if prefix == 2 then Ok(Field(4, -2))
                                 else Err(IndexOutOfBounds)
  {
    HeaderFields(frame, prefix);
    NextField(frame, 1, FieldFrom(frame, prefix).value);
  }

  lemma NextField(frame: seq<byte>, k: nat, field: Field)
    requires FieldAt(frame, k) == Ok(field)
    ensures FieldAt(frame, k + 1) == FieldFrom(frame, field.offset + field.length)
  {
  }

  lemma FrameStart(a: seq<byte>, b: seq<byte>, c: seq<byte>, rest: seq<byte>)
    ensures Layout(a, b, c, rest)[..4 + |a|] == Short16(VERSION) + Short16(|a|) + a
  {
  }

  lemma FirstBytes(frame: seq<byte>, a: seq<byte>)
    requires 65532 <= |a| <= UNSIGNED_SHORT_MAX && 4 + |a| <= |frame|
    requires frame[..4 + |a|] == Short16(VERSION) + Short16(|a|) + a
    ensures frame[0] == 0 && frame[1] == 1 && frame[2] == 0xFF && frame[3] as int == |a| - 65280
    ensures frame[4] == a[0] && frame[3..3 + 511] == [frame[3]] + a[..510]
  {
  }

  // The fields found by taking one of the frame's first four bytes for a length prefix.
  lemma HeaderFields(frame: seq<byte>, prefix: nat)
    requires prefix <= 3 && |frame| > 65535
    requires frame[0] == 0 && frame[1] == 1 && frame[2] == 0xFF && frame[3] as int == 252 + prefix && frame[4] <= 0xF4
    ensures FieldFrom(frame, prefix) == Ok(if prefix == 0 then Field(2, 1)
                                           else if prefix == 1 then Field(3, 511)
                                           else if prefix == 2 then Field(4, -2)
                                           else Field(5, frame[4] as int - 256))
    ensures prefix == 0 ==> FieldFrom(frame, 3) == Ok(Field(5, frame[4] as int - 1024))
    ensures prefix == 2 ==> FieldFrom(frame, 2) == Ok(Field(4, -2))
  {
  }

  lemma MethodIsVersion(frame: seq<byte>)
    requires |frame| > 3 && frame[0] == 0 && frame[1] == 1 && frame[2] == 0xFF
    requires FieldAt(frame, 1) == FieldFrom(frame, 0)
    ensures MethodOf(frame) == Ok([REPLACEMENT])
  {
    assert FieldAt(frame, 1) == Ok(Field(2, 1));
    assert frame[2..2 + 1] == [0xFF];
    assert TextAt(frame, 2, 1) == Ok(Decode([0xFF]));
    assert DecodeStep([0xFF]) == Step(REPLACEMENT, 1) && [0xFF][1..] == [];
    assert Decode([0xFF]) == [REPLACEMENT] + Decode([]) == [REPLACEMENT];
  }

  lemma MethodInHeader(frame: seq<byte>, prefix: nat)
    requires 1 <= prefix <= 3 && |frame| > 65535
    requires frame[1] == 1 && frame[2] == 0xFF && frame[3] as int == 252 + prefix
    requires FieldAt(frame, 1) == FieldFrom(frame, prefix)
    ensures MethodOf(frame) == if prefix == 1 then Ok(Decode(frame[3..3 + 511])) else Err(IndexOutOfBounds)
  {
    assert FieldAt(frame, 1) ==
           Ok(Field(prefix + 2, if prefix == 1 then 511 else if prefix == 2 then -2 else frame[4] as int - 256));
  }
}
