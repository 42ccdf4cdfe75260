/**
 The tracing section: a string map as a run of length-prefixed keys and values, and its way
 through the frame and back. The run is treated as bytes first; text comes in at the end.
 */
module Tracing {
  import opened Wrappers
  import opened Utf8
  import opened Buffers
  import opened Frames

  // A key and its value, as text and as the bytes of that text.
  type Entry = (string, string)
  type Raw = (seq<byte>, seq<byte>)

  // ---------- what is written ----------

  function RawBytes(e: Raw): (r: seq<byte>)
    ensures |r| == 2 * SHORT_BYTES + |e.0| + |e.1|
  {
    Section(e.0) + Section(e.1)
  }

  function RunBytes(run: seq<Raw>): seq<byte> {
    if run == [] then [] else RawBytes(run[0]) + RunBytes(run[1..])
  }

  function EncodeAll(entries: seq<Entry>): (r: seq<Raw>)
    ensures |r| == |entries|
    ensures forall i | 0 <= i < |r| :: r[i] == (Encode(entries[i].0), Encode(entries[i].1))
  {
    seq(|entries|, i requires 0 <= i < |entries| => (Encode(entries[i].0), Encode(entries[i].1)))
  }

  function MapBytes(entries: seq<Entry>): seq<byte> {
    RunBytes(EncodeAll(entries))
  }

  predicate Within(e: Raw, limit: int) {
    |e.0| <= limit && |e.1| <= limit
  }

  predicate AllWithin(run: seq<Raw>, limit: int) {
    forall i | 0 <= i < |run| :: Within(run[i], limit)
  }

  // The length that writing these entries stops at.
  function FirstOver(run: seq<Raw>): (n: int)
    ensures if AllWithin(run, UNSIGNED_SHORT_MAX) then n == 0
            else n > UNSIGNED_SHORT_MAX && exists i | 0 <= i < |run| :: |run[i].0| == n || |run[i].1| == n
  {
    if run == [] then 0
    else if |run[0].0| > UNSIGNED_SHORT_MAX then |run[0].0|
    else if |run[0].1| > UNSIGNED_SHORT_MAX then |run[0].1|
    else
      assert run == [run[0]] + run[1..];
      FirstOver(run[1..])
  }

  // `order` is one order in which a map with these keys may be iterated.
  ghost predicate IterationOrder(m: map<string, string>, order: seq<string>) {
    && (forall k :: k in order <==> k in m)
    && (forall i, j | 0 <= i < j < |order| :: order[i] != order[j])
  }

  function Entries(m: map<string, string>, order: seq<string>): (r: seq<Entry>)
    requires forall k | k in order :: k in m
    ensures |r| == |order| && forall i | 0 <= i < |r| :: r[i] == (order[i], m[order[i]])
  {
    seq(|order|, i requires 0 <= i < |order| => (order[i], m[order[i]]))
  }

  lemma EmptyMapHasNoOrder(m: map<string, string>, order: seq<string>)
    requires IterationOrder(m, order)
    ensures m == map[] <==> order == []
  {
    if order != [] {
      assert order[0] in m;
    }
  }

  // Writing entry by entry; it fails exactly when some key or value has more than 65535 bytes.
  method MapToByteBuf(m: Option<map<string, string>>, order: seq<string>) returns (r: Result<ByteBuf, Error>)
    requires m.Some? ==> IterationOrder(m.value, order)
    ensures r.Ok? <==> m.Some? ==> AllWithin(EncodeAll(Entries(m.value, order)), UNSIGNED_SHORT_MAX)
    ensures r.Err? ==> r.error == IllegalArgument(FirstOver(EncodeAll(Entries(m.value, order))))
    ensures r.Ok? ==> fresh(r.value) && r.value.readerIndex == 0
    ensures r.Ok? ==> r.value.bytes == if m.Some? then MapBytes(Entries(m.value, order)) else []
  {
    var byteBuf := new ByteBuf([]);
    if m.None? || m.value == map[] {
      if m.Some? {
        EmptyMapHasNoOrder(m.value, order);
      }
      return Ok(byteBuf);
    }
    var written := WriteEntries(byteBuf, Entries(m.value, order));
    if written.Err? { return Err(written.error); }
    return Ok(byteBuf);
  }

  method WriteEntries(byteBuf: ByteBuf, entries: seq<Entry>) returns (r: Result<(), Error>)
    modifies byteBuf`bytes
    ensures r.Ok? <==> AllWithin(EncodeAll(entries), UNSIGNED_SHORT_MAX)
    ensures r.Err? ==> r.error == IllegalArgument(FirstOver(EncodeAll(entries)))
    ensures r.Ok? ==> byteBuf.bytes == old(byteBuf.bytes) + MapBytes(entries)
  {
    r := WriteRun(byteBuf, entries, EncodeAll(entries));
  }

  // The entries with the bytes they stand for.
  method WriteRun(byteBuf: ByteBuf, entries: seq<Entry>, ghost run: seq<Raw>) returns (r: Result<(), Error>)
    requires |run| == |entries| && forall i | 0 <= i < |run| :: run[i] == (Encode(entries[i].0), Encode(entries[i].1))
    modifies byteBuf`bytes
    ensures r.Ok? <==> AllWithin(run, UNSIGNED_SHORT_MAX)
    ensures r.Err? ==> r.error == IllegalArgument(FirstOver(run))
    ensures r.Ok? ==> byteBuf.bytes == old(byteBuf.bytes) + RunBytes(run)
  {
    ghost var target := byteBuf.bytes + RunBytes(run);
    for i := 0 to |entries|
      invariant byteBuf.bytes + RunBytes(run[i..]) == target
      invariant forall j | 0 <= j < i :: Within(run[j], UNSIGNED_SHORT_MAX)
      invariant FirstOver(run) == FirstOver(run[i..])
    {
      TailOfTail(run, i);
      RunAdvances(byteBuf.bytes, run, i);
      var written := WriteEntry(byteBuf, entries[i].0, entries[i].1);
      if written.Err? { return Err(written.error); }
    }
    NothingBehind(run);
    NothingBehind(byteBuf.bytes);
    return Ok(());
  }

  method WriteEntry(byteBuf: ByteBuf, key: string, value: string) returns (r: Result<(), Error>)
    modifies byteBuf`bytes
    ensures r.Ok? <==> Within((Encode(key), Encode(value)), UNSIGNED_SHORT_MAX)
    ensures r.Err? ==> r.error == IllegalArgument(if |Encode(key)| > UNSIGNED_SHORT_MAX then |Encode(key)|
                                                  else |Encode(value)|)
    ensures r.Ok? ==> byteBuf.bytes == old(byteBuf.bytes) + RawBytes((Encode(key), Encode(value)))
  {
    ghost var before := byteBuf.bytes;
    var _ :- byteBuf.WriteSection(key);
    var _ :- byteBuf.WriteSection(value);
    Associate(before, Section(Encode(key)), Section(Encode(value)));
    return Ok(());
  }

  lemma RunAdvances(before: seq<byte>, run: seq<Raw>, i: nat)
    requires i < |run|
    ensures before + RawBytes(run[i]) + RunBytes(run[i + 1..]) == before + RunBytes(run[i..])
  {
    TailOfTail(run, i);
    Associate(before, RawBytes(run[i]), RunBytes(run[i + 1..]));
  }

  // ---------- what is read ----------

  datatype Parsed<+T> = Parsed(value: T, rest: seq<byte>)

  function ReadSection(b: seq<byte>): (r: Result<Parsed<seq<byte>>, Error>)
    ensures r.Ok? ==> |r.value.rest| + SHORT_BYTES <= |b|
  {
    var length :- ShortAt(b, 0);
    var content :- SliceAt(b, SHORT_BYTES, length);
    Ok(Parsed(content, b[SHORT_BYTES + length..]))
  }

  // One pass of the loop takes at least four bytes.
  function ReadRaw(b: seq<byte>): (r: Result<Parsed<Raw>, Error>)
    ensures r.Ok? ==> |r.value.rest| + 2 * SHORT_BYTES <= |b|
  {
    var key :- ReadSection(b);
    var value :- ReadSection(key.rest);
    Ok(Parsed((key.value, value.value), value.rest))
  }

  function ParseRun(b: seq<byte>): Result<seq<Raw>, Error> {
    if b == [] then Ok([])
    else
      var e :- ReadRaw(b);
      Prepend([e.value], ParseRun(e.rest))
  }

  function Prepend(done: seq<Raw>, r: Result<seq<Raw>, Error>): Result<seq<Raw>, Error> {
    if r.Ok? then Ok(done + r.value) else r
  }

  function DecodeAll(run: seq<Raw>): (r: seq<Entry>)
    ensures |r| == |run|
    ensures forall i | 0 <= i < |r| :: r[i] == (Decode(run[i].0), Decode(run[i].1))
  {
    seq(|run|, i requires 0 <= i < |run| => (Decode(run[i].0), Decode(run[i].1)))
  }

  // Later entries override earlier ones.
  function ToMap(entries: seq<Entry>): map<string, string> {
    if entries == [] then map[]
    else
      var last := entries[|entries| - 1];
      ToMap(entries[..|entries| - 1])[last.0 := last.1]
  }

  function ParseMap(b: seq<byte>): Result<map<string, string>, Error> {
    var run :- ParseRun(b);
    Ok(ToMap(DecodeAll(run)))
  }

  lemma PrependNothing(r: Result<seq<Raw>, Error>)
    ensures Prepend([], r) == r
  {
    if r.Ok? {
      assert [] + r.value == r.value;
    }
  }

  lemma PrependPrepend(x: seq<Raw>, y: seq<Raw>, r: Result<seq<Raw>, Error>)
    ensures Prepend(x, Prepend(y, r)) == Prepend(x + y, r)
  {
    if r.Ok? {
      assert x + (y + r.value) == x + y + r.value;
    }
  }

  // Reading at the reader index is reading from the front of the readable bytes.
  lemma ReadFromIndex(b: seq<byte>, i: nat, length: int)
    requires i <= |b|
    ensures ShortAt(b, i) == ShortAt(b[i..], 0)
    ensures SliceAt(b, i + SHORT_BYTES, length) == SliceAt(b[i..], SHORT_BYTES, length)
  {
    if 0 <= length && i + SHORT_BYTES + length <= |b| {
      assert b[i..][SHORT_BYTES..SHORT_BYTES + length] == b[i + SHORT_BYTES..i + SHORT_BYTES + length];
    }
  }

  // The source's two reads, of a length and then a text, as one step over the readable bytes.
  method ReadText(byteBuf: ByteBuf) returns (r: Result<string, Error>)
    requires byteBuf.Valid()
    modifies byteBuf`readerIndex
    ensures byteBuf.Valid()
    ensures var spec := ReadSection(old(byteBuf.Readable()));
            if spec.Ok? then r == Ok(Decode(spec.value.value)) && byteBuf.Readable() == spec.value.rest
            else r == Err(spec.error)
  {
    ghost var start := byteBuf.readerIndex;
    ReadFromIndex(byteBuf.bytes, start, 0);
    var length :- byteBuf.ReadShort();
    ReadFromIndex(byteBuf.bytes, start, length);
    r := byteBuf.ReadText(length);
    if r.Ok? {
      assert byteBuf.bytes[start..][SHORT_BYTES + length..] == byteBuf.Readable();
    }
  }

  // On any bytes the loop stops; it either fails, or has consumed them all.
  method ByteBufToMap(byteBuf: ByteBuf) returns (r: Result<map<string, string>, Error>)
    requires byteBuf.Valid()
    modifies byteBuf`readerIndex
    ensures r == ParseMap(old(byteBuf.Readable()))
    ensures r.Ok? ==> byteBuf.readerIndex == |byteBuf.bytes|
  {
    var m: map<string, string> := map[];
    ghost var done: seq<Raw> := [];
    PrependNothing(ParseRun(byteBuf.Readable()));
    while byteBuf.ReadableBytes() > 0
      invariant byteBuf.Valid()
      invariant ParseRun(old(byteBuf.Readable())) == Prepend(done, ParseRun(byteBuf.Readable()))
      invariant m == ToMap(DecodeAll(done))
      decreases |byteBuf.Readable()|
    {
      ghost var before := byteBuf.Readable();
      var key :- ReadText(byteBuf);
      var value :- ReadText(byteBuf);
      m := m[key := value];
      ghost var e := ReadRaw(before).value.value;
      PrependPrepend(done, [e], ParseRun(byteBuf.Readable()));
      ToMapPutsLast(done, e);
      done := done + [e];
    }
    assert byteBuf.Readable() == [] && done + [] == done;
    return Ok(m);
  }

  lemma ToMapPutsLast(done: seq<Raw>, e: Raw)
    ensures ToMap(DecodeAll(done + [e])) == ToMap(DecodeAll(done))[Decode(e.0) := Decode(e.1)]
  {
    assert DecodeAll(done + [e])[..|done|] == DecodeAll(done);
  }

  // The span context the server hands on; None when there is no tracer or nothing was sent.
  function SpanContextOf(tracer: bool, frame: seq<byte>): Result<Option<map<string, string>>, Error> {
    if !tracer then Ok(None)
    else
      var section :- TracingOf(frame);
      var m :- ParseMap(section);
      Ok(if m == map[] then None else Some(m))
  }

  // The frame itself is not moved: only the slice is read.
  method DeserializeTracingMetadata(tracer: bool, metadata: ByteBuf)
    returns (r: Result<Option<map<string, string>>, Error>)
    ensures r == SpanContextOf(tracer, metadata.bytes)
  {
    if !tracer {
      return Ok(None);
    }
    var slice :- GetTracing(metadata);
    assert slice.Readable() == slice.bytes;
    var m :- ByteBufToMap(slice);
    return Ok(if m == map[] then None else Some(m));
  }

  // ---------- properties ----------

  lemma {:induction false} EntriesPerByte(b: seq<byte>)
    requires ParseRun(b).Ok?
    ensures 4 * |ParseRun(b).value| <= |b|
    decreases |b|
  {
    if b != [] {
      EntriesPerByte(ReadRaw(b).value.rest);
    }
  }

  // Whatever the bytes, a read outside them is the only way to fail.
  lemma {:induction false} OnlyOutOfBounds(b: seq<byte>)
    ensures ParseRun(b).Err? ==> ParseRun(b).error == IndexOutOfBounds
    decreases |b|
  {
    if b != [] && ReadRaw(b).Ok? {
      OnlyOutOfBounds(ReadRaw(b).value.rest);
    }
  }

  lemma SpanContextFailure(tracer: bool, frame: seq<byte>)
    ensures SpanContextOf(tracer, frame).Err? ==> SpanContextOf(tracer, frame).error == IndexOutOfBounds
  {
    FieldFailure(frame);
    if TracingOf(frame).Ok? {
      OnlyOutOfBounds(TracingOf(frame).value);
    }
  }

  lemma ReadSectionExtends(b: seq<byte>, more: seq<byte>)
    requires ReadSection(b).Ok?
    ensures ReadSection(b + more) == Ok(Parsed(ReadSection(b).value.value, ReadSection(b).value.rest + more))
  {
    var length := ShortAt(b, 0).value;
    assert ShortAt(b + more, 0) == Ok(length);
    assert (b + more)[SHORT_BYTES..SHORT_BYTES + length] == b[SHORT_BYTES..SHORT_BYTES + length];
    assert (b + more)[SHORT_BYTES + length..] == b[SHORT_BYTES + length..] + more;
  }

  // Any bytes that parse can be followed by any others: parsing goes on where it stopped.
  lemma {:induction false} ParseConcatenation(a: seq<byte>, b: seq<byte>)
    requires ParseRun(a).Ok?
    ensures ParseRun(a + b) == Prepend(ParseRun(a).value, ParseRun(b))
    decreases |a|
  {
    if a == [] {
      assert a + b == b;
      PrependNothing(ParseRun(b));
    } else {
      ReadSectionExtends(a, b);
      ReadSectionExtends(ReadSection(a).value.rest, b);
      var e := ReadRaw(a).value;
      assert ReadRaw(a + b) == Ok(Parsed(e.value, e.rest + b));
      ParseConcatenation(e.rest, b);
      PrependPrepend([e.value], ParseRun(e.rest).value, ParseRun(b));
    }
  }

  lemma {:induction false} ToMapConcatenation(x: seq<Entry>, y: seq<Entry>)
    ensures ToMap(x + y) == ToMap(x) + ToMap(y)
  {
    if y == [] {
      assert x + y == x;
    } else {
      var init := y[..|y| - 1];
      assert (x + y)[..|x + y| - 1] == x + init;
      ToMapConcatenation(x, init);
    }
  }

  // Two runs of entries put together read as the first map overridden by the second.
  lemma ConcatenationOverrides(a: seq<byte>, b: seq<byte>)
    requires ParseMap(a).Ok? && ParseMap(b).Ok?
    ensures ParseMap(a + b) == Ok(ParseMap(a).value + ParseMap(b).value)
  {
    ParseConcatenation(a, b);
    DecodeAllConcatenation(ParseRun(a).value, ParseRun(b).value);
  }

  lemma DecodeAllPieces(x: seq<Raw>, y: seq<Raw>)
    ensures DecodeAll(x + y) == DecodeAll(x) + DecodeAll(y)
  {
  }

  lemma DecodeAllConcatenation(x: seq<Raw>, y: seq<Raw>)
    ensures ToMap(DecodeAll(x + y)) == ToMap(DecodeAll(x)) + ToMap(DecodeAll(y))
  {
    DecodeAllPieces(x, y);
    ToMapConcatenation(DecodeAll(x), DecodeAll(y));
  }

  lemma ReadWrittenSection(content: seq<byte>, rest: seq<byte>)
    requires |content| <= UNSIGNED_SHORT_MAX
    ensures ReadSection(Section(content) + rest) ==
            if |content| <= SIGNED_SHORT_MAX then Ok(Parsed(content, rest)) else Err(IndexOutOfBounds)
  {
  }

  lemma ParseWrittenRaw(e: Raw, b: seq<byte>)
    requires Within(e, UNSIGNED_SHORT_MAX)
    ensures ParseRun(RawBytes(e) + b) ==
            if Within(e, SIGNED_SHORT_MAX) then Prepend([e], ParseRun(b)) else Err(IndexOutOfBounds)
  {
    Associate(Section(e.0), Section(e.1), b);
    ReadWrittenSection(e.0, Section(e.1) + b);
    ReadWrittenSection(e.1, b);
  }

  // Entries read back, in order, if and only if every key and value fits a signed length.
  lemma {:induction false} ParseWritten(run: seq<Raw>)
    requires AllWithin(run, UNSIGNED_SHORT_MAX)
    ensures ParseRun(RunBytes(run)) == if AllWithin(run, SIGNED_SHORT_MAX) then Ok(run) else Err(IndexOutOfBounds)
  {
    if run != [] {
      var e, more := run[0], run[1..];
      assert run == [e] + more;
      assert AllWithin(run, SIGNED_SHORT_MAX) <==> Within(e, SIGNED_SHORT_MAX) && AllWithin(more, SIGNED_SHORT_MAX);
      ParseWrittenRaw(e, RunBytes(more));
      ParseWritten(more);
    }
  }

  lemma ReadSectionIsThere(b: seq<byte>)
    requires ReadSection(b).Ok?
    ensures b == Section(ReadSection(b).value.value) + ReadSection(b).value.rest
    ensures |ReadSection(b).value.value| <= SIGNED_SHORT_MAX
  {
    SectionIsThere(b, 0);
    assert b[..0] + Section(ReadSection(b).value.value) == Section(ReadSection(b).value.value);
  }

  // Reading is the inverse of writing, on any bytes: they read as these entries if and only if they
  // are what is written for them, and none is too long to be read back.
  lemma {:induction false} ParseIsInverse(b: seq<byte>, run: seq<Raw>)
    ensures ParseRun(b) == Ok(run) <==> RunBytes(run) == b && AllWithin(run, SIGNED_SHORT_MAX)
    decreases |b|
  {
    if RunBytes(run) == b && AllWithin(run, SIGNED_SHORT_MAX) {
      ParseWritten(run);
    }
    if ParseRun(b) == Ok(run) && b != [] {
      var key := ReadSection(b).value;
      var value := ReadSection(key.rest).value;
      ReadSectionIsThere(b);
      ReadSectionIsThere(key.rest);
      Associate(Section(key.value), Section(value.value), value.rest);
      ParseIsInverse(value.rest, ParseRun(value.rest).value);
      EntryInFront((key.value, value.value), ParseRun(value.rest).value, run);
    }
  }

  lemma EntryInFront(e: Raw, more: seq<Raw>, run: seq<Raw>)
    requires run == [e] + more && Within(e, SIGNED_SHORT_MAX) && AllWithin(more, SIGNED_SHORT_MAX)
    ensures RunBytes(run) == RawBytes(e) + RunBytes(more) && AllWithin(run, SIGNED_SHORT_MAX)
  {
    assert run[1..] == more;
  }

  lemma TruncatedSection(content: seq<byte>, p: nat)
    requires |content| <= UNSIGNED_SHORT_MAX && p < |Section(content)|
    ensures ReadSection(Section(content)[..p]) == Err(IndexOutOfBounds)
  {
  }

  lemma TruncatedRaw(e: Raw, p: nat)
    requires Within(e, UNSIGNED_SHORT_MAX) && 0 < p < |RawBytes(e)|
    ensures ParseRun(RawBytes(e)[..p]) == Err(IndexOutOfBounds)
  {
    var k, v := Section(e.0), Section(e.1);
    TakeFromTwo(k, v, p);
    if p < |k| {
      TruncatedSection(e.0, p);
    } else {
      ReadWrittenSection(e.0, v[..p - |k|]);
      TruncatedSection(e.1, p - |k|);
    }
  }

  lemma TakeFromTwo(x: seq<byte>, y: seq<byte>, p: nat)
    requires p <= |x + y|
    ensures (x + y)[..p] == if p < |x| then x[..p] else x + y[..p - |x|]
  {
  }

  // How many entries end exactly at byte p, if one does and all up to there are readable.
  function EntriesUpTo(run: seq<Raw>, p: nat): (n: Option<nat>)
    ensures n.Some? ==> n.value <= |run|
  {
    if p == 0 then Some(0)
    else if run == [] || !Within(run[0], SIGNED_SHORT_MAX) || p < |RawBytes(run[0])| then None
    else
      match EntriesUpTo(run[1..], p - |RawBytes(run[0])|)
      case None => None
      case Some(n) => Some(n + 1)
  }

  lemma {:induction false} EntriesUpToMeans(run: seq<Raw>, p: nat, n: nat)
    requires n <= |run|
    ensures EntriesUpTo(run, p) == Some(n) <==> |RunBytes(run[..n])| == p && AllWithin(run[..n], SIGNED_SHORT_MAX)
  {
    if n > 0 {
      FirstOfRun(run, n);
      if |RawBytes(run[0])| <= p {
        EntriesUpToMeans(run[1..], p - |RawBytes(run[0])|, n - 1);
      }
    } else {
      assert run[..n] == [];
    }
  }

  lemma FirstOfRun(run: seq<Raw>, n: nat)
    requires 0 < n <= |run|
    ensures |RunBytes(run[..n])| == |RawBytes(run[0])| + |RunBytes(run[1..][..n - 1])|
    ensures AllWithin(run[..n], SIGNED_SHORT_MAX) <==>
            Within(run[0], SIGNED_SHORT_MAX) && AllWithin(run[1..][..n - 1], SIGNED_SHORT_MAX)
  {
    assert run[..n][0] == run[0] && run[..n][1..] == run[1..][..n - 1];
    HeadAndTail(run[..n]);
  }

  // A run of entries cut at any place reads back if and only if the cut is right behind an entry
  // and all entries before it are readable, and then as those entries.
  lemma {:induction false} ParseTruncated(run: seq<Raw>, p: nat)
    requires AllWithin(run, UNSIGNED_SHORT_MAX) && p <= |RunBytes(run)|
    ensures ParseRun(RunBytes(run)[..p]) ==
            match EntriesUpTo(run, p)
            case Some(n) => Ok(run[..n])
            case None => Err(IndexOutOfBounds)
  {
    if p > 0 {
      var e, more := run[0], run[1..];
      var size := |RawBytes(e)|;
      TakeFromTwo(RawBytes(e), RunBytes(more), p);
      if p < size {
        TruncatedRaw(e, p);
      } else {
        ParseTruncated(more, p - size);
        ParseOneMore(run, RunBytes(more)[..p - size], p - size);
      }
    }
  }

  lemma ParseOneMore(run: seq<Raw>, b: seq<byte>, p: nat)
    requires run != [] && Within(run[0], UNSIGNED_SHORT_MAX)
    requires ParseRun(b) ==
             match EntriesUpTo(run[1..], p) { case Some(n) => Ok(run[1..][..n]) case None => Err(IndexOutOfBounds) }
    ensures ParseRun(RawBytes(run[0]) + b) ==
            match EntriesUpTo(run, |RawBytes(run[0])| + p)
            case Some(n) => Ok(run[..n])
            case None => Err(IndexOutOfBounds)
  {
    ParseWrittenRaw(run[0], b);
    PrependFirst(run, EntriesUpTo(run[1..], p));
  }

  lemma PrependFirst(run: seq<Raw>, n: Option<nat>)
    requires run != [] && (n.Some? ==> n.value < |run|)
    ensures n.Some? ==> Prepend([run[0]], Ok(run[1..][..n.value])) == Ok(run[..n.value + 1])
  {
    if n.Some? {
      assert [run[0]] + run[1..][..n.value] == run[..n.value + 1];
    }
  }

  lemma {:induction false} RunFitsItsBytes(run: seq<Raw>, limit: int)
    requires |RunBytes(run)| <= limit
    ensures AllWithin(run, limit)
  {
    if run != [] {
      RunFitsItsBytes(run[1..], limit);
      assert run == [run[0]] + run[1..];
    }
  }

  lemma DecodeEncodeAll(entries: seq<Entry>, n: nat)
    requires n <= |entries|
    ensures DecodeAll(EncodeAll(entries)[..n]) == entries[..n]
  {
    forall i | 0 <= i < n ensures DecodeAll(EncodeAll(entries)[..n])[i] == entries[i] {
      RoundTrip(entries[i].0);
      RoundTrip(entries[i].1);
    }
  }

  // Reading back in any iteration order rebuilds the map; reading fewer entries does not.
  lemma {:induction false} ToMapOfEntries(m: map<string, string>, order: seq<string>, n: nat)
    requires IterationOrder(m, order) && n <= |order|
    ensures ToMap(Entries(m, order)[..n]) == map k | k in order[..n] :: m[k]
  {
    if n > 0 {
      ToMapOfEntries(m, order, n - 1);
      InitOfInit(Entries(m, order), n);
      InitOfInit(order, n);
      OneMoreKey(m, order[..n - 1], order[n - 1]);
    }
  }

  lemma InitOfInit<T>(s: seq<T>, n: nat)
    requires 0 < n <= |s|
    ensures s[..n] == s[..n - 1] + [s[n - 1]] && s[..n][..n - 1] == s[..n - 1]
  {
  }

  lemma OneMoreKey(m: map<string, string>, keys: seq<string>, key: string)
    requires key in m && forall k | k in keys :: k in m
    ensures (map k | k in keys + [key] :: m[k]) == (map k | k in keys :: m[k])[key := m[key]]
  {
  }

  lemma FirstEntries(m: map<string, string>, order: seq<string>, n: nat)
    requires IterationOrder(m, order) && n <= |order|
    ensures (map k | k in order[..n] :: m[k]) == map[] <==> n == 0
    ensures (map k | k in order[..n] :: m[k]) == m <==> n == |order|
  {
    var first := map k | k in order[..n] :: m[k];
    if n > 0 {
      assert order[0] in order[..n] && order[0] in first;
    }
    if n < |order| {
      assert order[n] !in order[..n] && order[n] in m;
    } else {
      assert order[..n] == order;
    }
  }

  lemma MapRoundTrip(m: map<string, string>, order: seq<string>)
    requires IterationOrder(m, order)
    requires AllWithin(EncodeAll(Entries(m, order)), UNSIGNED_SHORT_MAX)
    ensures ParseMap(MapBytes(Entries(m, order))) ==
            if AllWithin(EncodeAll(Entries(m, order)), SIGNED_SHORT_MAX) then Ok(m) else Err(IndexOutOfBounds)
  {
    ParseWritten(EncodeAll(Entries(m, order)));
    WholeMap(m, order);
  }

  lemma WholeMap(m: map<string, string>, order: seq<string>)
    requires IterationOrder(m, order)
    ensures ToMap(DecodeAll(EncodeAll(Entries(m, order)))) == m
  {
    DecodeEncodeAll(Entries(m, order), |order|);
    ToMapOfEntries(m, order, |order|);
    FirstEntries(m, order, |order|);
    NothingBehind(EncodeAll(Entries(m, order)));
    NothingBehind(Entries(m, order));
  }

  // How many entries of the map the server's getter leaves whole, if it cuts between two of them.
  function EntriesLeft(entries: seq<Entry>): Option<nat> {
    EntriesUpTo(EncodeAll(entries), |Cut(MapBytes(entries))|)
  }

  // Sections of at most 32767 bytes keep all their entries, and those of up to 65536 keep none,
  // which is no failure. Only a longer one can be cut inside an entry.
  lemma EntriesLeftByLength(entries: seq<Entry>)
    ensures |MapBytes(entries)| <= SIGNED_SHORT_MAX ==> EntriesLeft(entries) == Some(|entries|)
    ensures SIGNED_SHORT_MAX < |MapBytes(entries)| <= UNSIGNED_SHORT_MAX + 1 ==> EntriesLeft(entries) == Some(0)
    ensures |MapBytes(entries)| > SIGNED_SHORT_MAX && EntriesLeft(entries).Some? ==>
              EntriesLeft(entries).value < |entries|
  {
    var run, section := EncodeAll(entries), MapBytes(entries);
    SignedLength(|section|);
    assert run[..|run|] == run;
    if |section| <= SIGNED_SHORT_MAX {
      RunFitsItsBytes(run, SIGNED_SHORT_MAX);
    }
    EntriesUpToMeans(run, |Cut(section)|, |run|);
  }

  lemma CutParses(m: map<string, string>, order: seq<string>)
    requires IterationOrder(m, order) && AllWithin(EncodeAll(Entries(m, order)), UNSIGNED_SHORT_MAX)
    ensures ParseMap(Cut(MapBytes(Entries(m, order)))) ==
            match EntriesLeft(Entries(m, order))
            case Some(n) => Ok(map k | k in order[..n] :: m[k])
            case None => Err(IndexOutOfBounds)
  {
    var entries := Entries(m, order);
    var section := MapBytes(entries);
    CutIsPrefix(section);
    ParseTruncated(EncodeAll(entries), |Cut(section)|);
    if EntriesLeft(entries).Some? {
      DecodeEncodeAll(entries, EntriesLeft(entries).value);
      ToMapOfEntries(m, order, EntriesLeft(entries).value);
    }
  }

  lemma CutIsPrefix(c: seq<byte>)
    ensures |Cut(c)| <= |c| && Cut(c) == c[..|Cut(c)|]
  {
  }

  // The span context made of them: none without a tracer, and none from no entries.
  function SpanLeft(m: map<string, string>, order: seq<string>, tracer: bool): Option<map<string, string>>
    requires forall k | k in order :: k in m
  {
    match EntriesLeft(Entries(m, order))
    case Some(n) => if !tracer || n == 0 then None else Some(map k | k in order[..n] :: m[k])
    case None => None
  }

  // What the server's tracer is handed, for every map and iteration order: the entries that the
  // getter leaves whole, nothing if it leaves none, and an error if it cuts inside an entry.
  lemma SpanContextIsFirstEntries(service: string, meth: string, m: map<string, string>, order: seq<string>,
                                  metadata: seq<byte>, tracer: bool)
    requires TextsFit(|Encode(service)|, |Encode(meth)|)
    requires IterationOrder(m, order) && AllWithin(EncodeAll(Entries(m, order)), UNSIGNED_SHORT_MAX)
    ensures SpanContextOf(tracer, FrameBytes(service, meth, MapBytes(Entries(m, order)), metadata)) ==
            if tracer && EntriesLeft(Entries(m, order)).None? then Err(IndexOutOfBounds)
            else Ok(SpanLeft(m, order, tracer))
  {
    TracingRoundTrip(service, meth, MapBytes(Entries(m, order)), metadata);
    CutParses(m, order);
    if EntriesLeft(Entries(m, order)).Some? {
      FirstEntries(m, order, EntriesLeft(Entries(m, order)).value);
    }
  }

  // The nested round trip: map to section to frame to section to map gives back a non-empty map,
  // in whatever order it was iterated, if and only if both texts and the whole section have at
  // most 32767 bytes, or the texts put the getter inside earlier bytes that happen to spell it.
  lemma NestedRoundTrip(service: string, meth: string, m: map<string, string>, order: seq<string>, metadata: seq<byte>)
    requires |Encode(service)| <= UNSIGNED_SHORT_MAX && |Encode(meth)| <= UNSIGNED_SHORT_MAX
    requires m != map[] && IterationOrder(m, order) && AllWithin(EncodeAll(Entries(m, order)), UNSIGNED_SHORT_MAX)
    ensures var s, t, section := |Encode(service)|, |Encode(meth)|, MapBytes(Entries(m, order));
            var frame := FrameBytes(service, meth, section, metadata);
            SpanContextOf(true, frame) == Ok(Some(m)) <==>
            if Misread(s, t) then
              MisreadTracing(frame, s, t).Ok? && ParseMap(MisreadTracing(frame, s, t).value) == Ok(m)
            else TextsFit(s, t) && |section| <= SIGNED_SHORT_MAX
  {
    var section := MapBytes(Entries(m, order));
    if TextsFit(|Encode(service)|, |Encode(meth)|) {
      SpanContextIsFirstEntries(service, meth, m, order, metadata, true);
      AllEntriesLeft(m, order);
    } else {
      TracingRoundTrip(service, meth, section, metadata);
      MisreadContext(FrameBytes(service, meth, section, metadata), |Encode(service)|, |Encode(meth)|, m);
    }
  }

  lemma AllEntriesLeft(m: map<string, string>, order: seq<string>)
    requires m != map[] && IterationOrder(m, order)
    ensures SpanLeft(m, order, true) == Some(m) <==> |MapBytes(Entries(m, order))| <= SIGNED_SHORT_MAX
  {
    EntriesLeftByLength(Entries(m, order));
    EmptyMapHasNoOrder(m, order);
    if EntriesLeft(Entries(m, order)).Some? {
      FirstEntries(m, order, EntriesLeft(Entries(m, order)).value);
    }
  }

  lemma MisreadContext(frame: seq<byte>, s: nat, t: nat, m: map<string, string>)
    requires MisreadBuffers(frame, s, t, 0) && m != map[]
    ensures SpanContextOf(true, frame) == Ok(Some(m)) <==>
            Misread(s, t) && MisreadTracing(frame, s, t).Ok? && ParseMap(MisreadTracing(frame, s, t).value) == Ok(m)
  {
    assert ParseMap([]) == Ok(map[]);
  }

  // ---------- earlier bytes that spell a map ----------

  // A service name that holds a tracing section where the getter looks for one.
  function Spelling(): string {
    seq(65533, i => if i == 511 then 6 as char else if i == 513 || i == 516 then 1 as char
                    else if i == 510 || i == 512 || i == 515 then 0 as char
                    else if i == 514 then 'a' else 'b')
  }

  // Behind that name every call carries the same map, whatever map was sent.
  lemma MisreadSpellsAMap(meth: string, section: seq<byte>, metadata: seq<byte>)
    requires |Encode(meth)| <= UNSIGNED_SHORT_MAX
    ensures Misread(|Encode(Spelling())|, |Encode(meth)|)
    ensures SpanContextOf(true, FrameBytes(Spelling(), meth, section, metadata)) == Ok(Some(map["a" := "b"]))
  {
    SpellingBytes();
    SpelledFrame(Spelling(), meth, section, metadata);
  }

  lemma SpellingBytes()
    ensures |Encode(Spelling())| == 65533 && Encode(Spelling())[510..518] == [0, 6, 0, 1, 97, 0, 1, 98]
  {
    var s := Spelling();
    assert s[510..518] == [0 as char, 6 as char, 0 as char, 1 as char, 'a', 0 as char, 1 as char, 'b'];
    EncodeAscii(s);
    SameCodes(s[510..518], Encode(s)[510..518]);
  }

  lemma SameCodes(s: string, b: seq<byte>)
    requires |b| == |s| && forall i | 0 <= i < |s| :: b[i] as int == s[i] as int
    requires s == [0 as char, 6 as char, 0 as char, 1 as char, 'a', 0 as char, 1 as char, 'b']
    ensures b == [0, 6, 0, 1, 97, 0, 1, 98]
  {
  }

  lemma SpelledFrame(service: string, meth: string, section: seq<byte>, metadata: seq<byte>)
    requires |Encode(service)| == 65533 && |Encode(meth)| <= UNSIGNED_SHORT_MAX
    requires Encode(service)[510..518] == [0, 6, 0, 1, 97, 0, 1, 98]
    ensures SpanContextOf(true, FrameBytes(service, meth, section, metadata)) == Ok(Some(map["a" := "b"]))
  {
    var frame := FrameBytes(service, meth, section, metadata);
    BuffersBehindLongTexts(service, meth, section, metadata, 0);
    FrameStart(Encode(service), Encode(meth), section, metadata);
    SpelledSection(frame, Encode(service));
    SpelledContext(frame, |Encode(meth)|);
  }

  lemma SpelledContext(frame: seq<byte>, t: nat)
    requires MisreadBuffers(frame, 65533, t, 0)
    requires ShortAt(frame, 514) == Ok(6) && PositiveSlice(frame, 516, 6) == Ok([0, 1, 97, 0, 1, 98])
    ensures SpanContextOf(true, frame) == Ok(Some(map["a" := "b"]))
  {
    SpelledMap();
    assert TracingOf(frame) == MisreadTracing(frame, 65533, t) == Ok([0, 1, 97, 0, 1, 98]);
    assert "a" in map["a" := "b"] && map["a" := "b"] != map[];
  }

  lemma SpelledSection(frame: seq<byte>, a: seq<byte>)
    requires |a| == 65533 && 4 + |a| <= |frame|
    requires frame[..4 + |a|] == Short16(VERSION) + Short16(|a|) + a
    requires a[510..518] == [0, 6, 0, 1, 97, 0, 1, 98]
    ensures ShortAt(frame, 514) == Ok(6) && PositiveSlice(frame, 516, 6) == Ok([0, 1, 97, 0, 1, 98])
  {
    assert frame[514..522] == frame[..4 + |a|][514..522] == a[510..518];
    assert frame[514] == frame[514..522][0] && frame[515] == frame[514..522][1];
    var spelled: seq<byte> := [0, 6, 0, 1, 97, 0, 1, 98];
    assert frame[514..522] == spelled && spelled[2..8] == [0, 1, 97, 0, 1, 98];
    assert frame[516..522] == frame[514..522][2..8];
  }

  lemma SpelledMap()
    ensures ParseMap([0, 1, 97, 0, 1, 98]) == Ok(map["a" := "b"])
  {
    var e: Raw := ([97], [98]);
    SpelledRun();
    OneLetter('a');
    OneLetter('b');
    ToMapPutsLast([], e);
    assert [] + [e] == [e] && DecodeAll([]) == [];
  }

  lemma SpelledRun()
    ensures ParseRun([0, 1, 97, 0, 1, 98]) == Ok([([97], [98])])
  {
    var e: Raw := ([97], [98]);
    var b: seq<byte> := [0, 1, 97, 0, 1, 98];
    assert b[2..3] == [97] && b[3..] == [0, 1, 98] && [0, 1, 98][2..3] == [98] && [0, 1, 98][3..] == [];
    assert ReadSection(b) == Ok(Parsed([97], [0, 1, 98])) && ReadSection([0, 1, 98]) == Ok(Parsed([98], []));
    assert ParseRun(b) == Prepend([e], ParseRun([]));
    assert [e] + [] == [e];
  }

  lemma OneLetter(c: char)
    requires c as int < 0x80
    ensures Decode([c as int]) == [c]
  {
    assert DecodeStep([c as int]) == Step(c, 1) && [c as int][1..] == [];
  }
}
