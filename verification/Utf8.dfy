/**
 UTF-8 (section 3 of RFC 3629) over Unicode scalar values, which is what a Dafny `char` is.
 Decoding is total: every maximal ill-formed subpart becomes one U+FFFD. The JVM's decoders also
 replace what is ill-formed, but may group it differently, an encoded surrogate for example.
 */
module Utf8 {

  type byte = x: int | 0 <= x < 256

  const REPLACEMENT: char := '\U{FFFD}'

  // A number as its upper part and its lowest six bits. Quotient and remainder are given by what
  // defines them, which keeps the arithmetic of every proof below linear.
  function SixBits(v: nat): (r: (nat, nat))
    ensures v == 64 * r.0 + r.1 && r.1 < 64
  {
    assert v == 64 * (v / 64) + v % 64;
    var upper: nat, lower: nat :| lower < 64 && v == 64 * upper + lower;
    (upper, lower)
  }

  function EncodeChar(c: char): seq<byte> {
    var v := c as int;
    var (v1, low) := SixBits(v);
    var (v2, middle) := SixBits(v1);
    var (v3, high) := SixBits(v2);
    if v < 0x80 then [v]
    else if v < 0x800 then [0xC0 + v1, 0x80 + low]
    else if v < 0x1_0000 then [0xE0 + v2, 0x80 + middle, 0x80 + low]
    else [0xF0 + v3, 0x80 + high, 0x80 + middle, 0x80 + low]
  }

  function Encode(s: string): seq<byte> {
    if s == "" then [] else EncodeChar(s[0]) + Encode(s[1..])
  }

  // The length computed ahead of the write, from the size class of each character.
  function Utf8Bytes(s: string): nat {
    if s == "" then 0
    else
      var v := s[0] as int;
      (if v < 0x80 then 1 else if v < 0x800 then 2 else if v < 0x1_0000 then 3 else 4) + Utf8Bytes(s[1..])
  }

  lemma {:induction false} Utf8BytesIsLength(s: string)
    ensures Utf8Bytes(s) == |Encode(s)|
  {
    if s != "" {
      Utf8BytesIsLength(s[1..]);
    }
  }

  lemma {:induction false} EncodeAscii(s: string)
    requires forall i | 0 <= i < |s| :: s[i] as int < 0x80
    ensures |Encode(s)| == |s| && forall i | 0 <= i < |s| :: Encode(s)[i] as int == s[i] as int
  {
    if s != "" {
      assert EncodeChar(s[0]) == [s[0] as int];
      EncodeAscii(s[1..]);
    }
  }

  // No text starts with a byte above 0xF4.
  lemma LeadByte(s: string)
    requires s != ""
    ensures Encode(s) != [] && Encode(s)[0] <= 0xF4
  {
    var (v1, low) := SixBits(s[0] as int);
    var (v2, middle) := SixBits(v1);
    var (v3, high) := SixBits(v2);
    assert Encode(s)[0] == EncodeChar(s[0])[0];
  }

  predicate Continuation(b: byte) {
    0x80 <= b < 0xC0
  }

  // The six bits a continuation byte carries.
  function Payload(b: byte): (r: int)
    requires Continuation(b)
    ensures 0 <= r < 64
  {
    b as int - 0x80
  }

  // The second bytes a lead byte admits; the narrow ranges exclude overlong forms,
  // surrogates and values beyond U+10FFFF.
  predicate SecondByte(lead: byte, b: byte) {
    && Continuation(b)
    && (lead == 0xE0 ==> 0xA0 <= b)
    && (lead == 0xED ==> b < 0xA0)
    && (lead == 0xF0 ==> 0x90 <= b)
    && (lead == 0xF4 ==> b < 0x90)
  }

  datatype Step = Step(c: char, used: nat)

  // Decodes the first character of `b`, or replaces its first maximal ill-formed subpart.
  function DecodeStep(b: seq<byte>): (r: Step)
    requires b != []
    ensures 1 <= r.used <= 4 && r.used <= |b|
  {
    var b0: int := b[0];
    if b0 < 0x80 then Step(b0 as char, 1)
    else if b0 < 0xC2 || 0xF4 < b0 || |b| < 2 || !SecondByte(b0, b[1]) then Step(REPLACEMENT, 1)
    else
      var two := (if b0 < 0xE0 then b0 - 0xC0 else if b0 < 0xF0 then b0 - 0xE0 else b0 - 0xF0) * 64 + Payload(b[1]);
      if b0 < 0xE0 then Step(two as char, 2)
      else if |b| < 3 || !Continuation(b[2]) then Step(REPLACEMENT, 2)
      else if b0 < 0xF0 then Step((two * 64 + Payload(b[2])) as char, 3)
      else if |b| < 4 || !Continuation(b[3]) then Step(REPLACEMENT, 3)
      else Step(((two * 64 + Payload(b[2])) * 64 + Payload(b[3])) as char, 4)
  }

  function Decode(b: seq<byte>): string {
    if b == [] then ""
    else
      var step := DecodeStep(b);
      [step.c] + Decode(b[step.used..])
  }

  // ---------- what one step decodes ----------

  // The bytes a character is encoded with: how many is told by the first, and the second obeys it.
  predicate Encoded(e: seq<byte>) {
    && e != []
    && (|e| == 1 ==> e[0] < 0x80)
    && (|e| == 2 ==> 0xC2 <= e[0] < 0xE0) && (|e| == 3 ==> 0xE0 <= e[0] < 0xF0) && (|e| == 4 ==> 0xF0 <= e[0] <= 0xF4)
    && (|e| > 1 ==> SecondByte(e[0], e[1])) && (|e| > 2 ==> Continuation(e[2])) && (|e| > 3 ==> Continuation(e[3]))
    && |e| <= 4
  }

  lemma EncodeCharIsEncoded(c: char)
    ensures Encoded(EncodeChar(c))
  {
    var (v1, low) := SixBits(c as int);
    var (v2, middle) := SixBits(v1);
    var (v3, high) := SixBits(v2);
  }

  // Every such sequence is the encoding of a character, and of only one.
  lemma EncodedIsEncodeChar(e: seq<byte>)
    requires Encoded(e)
    ensures DecodeStep(e).used == |e| && EncodeChar(DecodeStep(e).c) == e
  {
    if |e| == 2 {
      SixBitsOf(e[0] - 0xC0, Payload(e[1]));
    } else if |e| == 3 {
      ThreeBytes(e);
    } else if |e| == 4 {
      FourBytes(e);
    }
  }

  lemma SixBitsOf(upper: nat, lower: nat)
    requires lower < 64
    ensures SixBits(64 * upper + lower) == (upper, lower)
  {
  }

  lemma ThreeBytes(e: seq<byte>)
    requires Encoded(e) && |e| == 3
    ensures DecodeStep(e).used == 3 && EncodeChar(DecodeStep(e).c) == e
  {
    var high, middle, low := e[0] - 0xE0, Payload(e[1]), Payload(e[2]);
    SixBitsOf(high * 64 + middle, low);
    SixBitsOf(high, middle);
    assert DecodeStep(e).c as int == 64 * (64 * high + middle) + low;
  }

  lemma FourBytes(e: seq<byte>)
    requires Encoded(e) && |e| == 4
    ensures DecodeStep(e).used == 4 && EncodeChar(DecodeStep(e).c) == e
  {
    var top, high, middle, low := e[0] - 0xF0, Payload(e[1]), Payload(e[2]), Payload(e[3]);
    SixBitsOf((top * 64 + high) * 64 + middle, low);
    SixBitsOf(top * 64 + high, middle);
    SixBitsOf(top, high);
    assert DecodeStep(e).c as int == 64 * (64 * (64 * top + high) + middle) + low;
  }

  // The examples of section 7 of RFC 3629.
  lemma Rfc3629Examples()
    ensures Encode("A\U{2262}\U{0391}.") == [0x41] + [0xE2, 0x89, 0xA2] + [0xCE, 0x91] + [0x2E]
    ensures Encode("\U{D55C}") == [0xED, 0x95, 0x9C] && Encode("\U{65E5}") == [0xE6, 0x97, 0xA5]
    ensures Encode("\U{233B4}") == [0xF0, 0xA3, 0x8E, 0xB4]
  {
    NotIdentical();
    EncodeOne('\U{D55C}');
    EncodeOne('\U{65E5}');
    EncodeOne('\U{233B4}');
    Korean();
    Japanese();
    StumpOfTree();
  }

  lemma NotIdentical()
    ensures Encode("A\U{2262}\U{0391}.") == [0x41] + [0xE2, 0x89, 0xA2] + [0xCE, 0x91] + [0x2E]
  {
    NotIdenticalSign();
    Alpha();
    EncodeOne('.');
    EncodeMore('\U{0391}', ".");
    EncodeMore('\U{2262}', ['\U{0391}'] + ".");
    EncodeMore('A', ['\U{2262}'] + (['\U{0391}'] + "."));
    assert "A\U{2262}\U{0391}." == ['A'] + (['\U{2262}'] + (['\U{0391}'] + "."));
  }

  lemma NotIdenticalSign()
    ensures EncodeChar('\U{2262}') == [0xE2, 0x89, 0xA2]
  {
    EncodedIsEncodeChar([0xE2, 0x89, 0xA2]);
  }

  lemma Alpha()
    ensures EncodeChar('\U{0391}') == [0xCE, 0x91]
  {
    EncodedIsEncodeChar([0xCE, 0x91]);
  }

  lemma Korean()
    ensures EncodeChar('\U{D55C}') == [0xED, 0x95, 0x9C]
  {
    EncodedIsEncodeChar([0xED, 0x95, 0x9C]);
  }

  lemma Japanese()
    ensures EncodeChar('\U{65E5}') == [0xE6, 0x97, 0xA5]
  {
    EncodedIsEncodeChar([0xE6, 0x97, 0xA5]);
  }

  lemma StumpOfTree()
    ensures EncodeChar('\U{233B4}') == [0xF0, 0xA3, 0x8E, 0xB4]
  {
    EncodedIsEncodeChar([0xF0, 0xA3, 0x8E, 0xB4]);
  }

  lemma EncodeMore(c: char, s: string)
    ensures Encode([c] + s) == EncodeChar(c) + Encode(s)
  {
    assert ([c] + s)[1..] == s;
  }

  lemma EncodeOne(c: char)
    ensures Encode([c]) == EncodeChar(c)
  {
    assert [c][1..] == "" && EncodeChar(c) + [] == EncodeChar(c);
  }

  // Some character's encoding starts with b and goes on.
  ghost predicate Unfinished(b: seq<byte>) {
    exists c: char :: |b| < |EncodeChar(c)| && EncodeChar(c)[..|b|] == b
  }

  lemma StepOfPrefix(b: seq<byte>, n: nat)
    requires n <= |b| && Encoded(b[..n])
    ensures DecodeStep(b) == DecodeStep(b[..n])
  {
    assert forall i | 0 <= i < n :: b[..n][i] == b[i];
  }

  lemma TakeStart(e: seq<byte>, b: seq<byte>)
    requires Encoded(e)
    ensures e <= b ==> b != [] && b[..|e|] == e && DecodeStep(b) == DecodeStep(e) && DecodeStep(e).used == |e|
  {
    if e <= b {
      StepOfPrefix(b, |e|);
    }
  }

  lemma NotAtFront(b: seq<byte>, c: char)
    requires b != [] && !Encoded(b[..DecodeStep(b).used])
    ensures !(EncodeChar(c) <= b)
  {
    EncodeCharIsEncoded(c);
    TakeStart(EncodeChar(c), b);
  }

  lemma NotFurther(b: seq<byte>, c: char)
    requires b != [] && !Encoded(b[..DecodeStep(b).used]) && DecodeStep(b).used < |b|
    ensures var n := DecodeStep(b).used + 1; !(n < |EncodeChar(c)| && EncodeChar(c)[..n] == b[..n])
  {
    EncodeCharIsEncoded(c);
    SameStart(EncodeChar(c), b, DecodeStep(b).used + 1);
  }

  lemma SameStart(e: seq<byte>, b: seq<byte>, n: nat)
    requires n <= |b|
    ensures n < |e| && e[..n] == b[..n] ==> forall i | 0 <= i < n :: e[i] == b[i]
  {
    if n < |e| && e[..n] == b[..n] {
      assert forall i | 0 <= i < n :: e[i] == e[..n][i] && b[i] == b[..n][i];
    }
  }

  lemma Completed(b: seq<byte>)
    requires b != [] && DecodeStep(b).used > 1 && !Encoded(b[..DecodeStep(b).used])
    ensures Unfinished(b[..DecodeStep(b).used])
  {
    var n := DecodeStep(b).used;
    var fill: seq<byte> := if n == 3 || b[0] < 0xF0 then [0x80] else [0x80, 0x80];
    var e := b[..n] + fill;
    assert forall i | 0 <= i < n :: e[i] == b[i];
    EncodedIsEncodeChar(e);
    assert EncodeChar(DecodeStep(e).c)[..n] == b[..n];
  }

  // A step takes a whole character off the front if one is there; else it replaces bytes that are
  // the start of a character's encoding, or a single byte, and no more of them are.
  lemma DecodeStepIs(b: seq<byte>)
    requires b != []
    ensures var step := DecodeStep(b);
            || EncodeChar(step.c) == b[..step.used]
            || (&& step.c == REPLACEMENT && (forall c: char :: !(EncodeChar(c) <= b))
                && (step.used == 1 || Unfinished(b[..step.used]))
                && (step.used < |b| ==> !Unfinished(b[..step.used + 1])))
  {
    var step := DecodeStep(b);
    if Encoded(b[..step.used]) {
      StepOfPrefix(b, step.used);
      EncodedIsEncodeChar(b[..step.used]);
    } else {
      forall c: char ensures !(EncodeChar(c) <= b) {
        NotAtFront(b, c);
      }
      if step.used < |b| {
        forall c: char
          ensures !(step.used + 1 < |EncodeChar(c)| && EncodeChar(c)[..step.used + 1] == b[..step.used + 1])
        {
          NotFurther(b, c);
        }
      }
      if step.used > 1 {
        Completed(b);
      }
    }
  }

  // One character decodes to itself whatever follows it.
  lemma DecodeStepOfEncodeChar(c: char, rest: seq<byte>)
    ensures DecodeStep(EncodeChar(c) + rest) == Step(c, |EncodeChar(c)|)
  {
  }

  // Decoding undoes encoding, and the decoder is back in step after it.
  lemma {:induction false} DecodeEncode(s: string, rest: seq<byte>)
    ensures Decode(Encode(s) + rest) == s + Decode(rest)
  {
    if s == "" {
      assert Encode(s) + rest == rest;
    } else {
      DecodeEncode(s[1..], rest);
      DecodeOneMore(s[0], Encode(s[1..]), rest);
      PutBack(s, Decode(rest));
    }
  }

  lemma PutBack(s: string, t: string)
    requires s != ""
    ensures [s[0]] + (s[1..] + t) == s + t
  {
    assert [s[0]] + s[1..] == s;
  }

  lemma DecodeOneMore(c: char, more: seq<byte>, rest: seq<byte>)
    ensures Decode(EncodeChar(c) + more + rest) == [c] + Decode(more + rest)
  {
    DecodeStepOfEncodeChar(c, more + rest);
    DecodeChunk(EncodeChar(c), c, more, rest);
  }

  // Decoding goes on behind a chunk that decodes to one character.
  lemma DecodeChunk(chunk: seq<byte>, c: char, more: seq<byte>, rest: seq<byte>)
    requires chunk != [] && DecodeStep(chunk + (more + rest)) == Step(c, |chunk|)
    ensures Decode(chunk + more + rest) == [c] + Decode(more + rest)
  {
    assert chunk + more + rest == chunk + (more + rest);
    assert (chunk + (more + rest))[|chunk|..] == more + rest;
  }

  lemma RoundTrip(s: string)
    ensures Decode(Encode(s)) == s
  {
    DecodeEncode(s, []);
    assert Encode(s) + [] == Encode(s);
  }
}
