/**
 * The DER reader for RSA public keys (crates/specton-auth/src/main.rs).
 *
 * `usize` is 64 bits wide: shifting the accumulated length drops its high bits.
 * Slicing past the end of the input panics in the source; here it is the outcome
 * `Panic`. Results are the raw bytes the source hands to base64url.
 */
module Der {
  import opened Common

  datatype Parsed<+T> = Found(value: T) | Nothing | Panic

  datatype Key = Key(n: Bytes, e: Bytes)

  datatype Tlv = Tlv(tag: Byte, length: nat, header: nat)

  const USIZE: nat := 0x1_0000_0000_0000_0000

  /** No slice is longer than `isize::MAX` bytes. */
  const MAX_SLICE: nat := 0x7fff_ffff_ffff_ffff

  // ---- The reader ----

  /** The big-endian value of `b`, keeping the low 64 bits at every step. */
  function LowBits(b: Bytes): (n: nat)
    ensures n < USIZE
  {
    if b == [] then 0 else (LowBits(b[..|b| - 1]) * 256) % USIZE + b[|b| - 1]
  }

  function ReadTagLength(data: Bytes): Parsed<Tlv> {
    if |data| < 2 then Nothing
    else if data[1] < 128 then Found(Tlv(data[0], data[1], 2))
    else
      var k := data[1] - 128;
      if |data| < 2 + k then Nothing else Found(Tlv(data[0], LowBits(data[2..2 + k]), 2 + k))
  }

  method DerReadTagLength(data: Bytes) returns (r: Parsed<Tlv>)
    ensures r == ReadTagLength(data)
  {
    if |data| == 0 {
      return Nothing;
    }
    var tag := data[0];
    if |data| < 2 {
      return Nothing;
    }
    if data[1] < 128 {
      return Found(Tlv(tag, data[1], 2));
    }
    var numBytes := data[1] - 128;
    if |data| < 2 + numBytes {
      return Nothing;
    }
    var length := 0;
    for i := 0 to numBytes
      invariant length == LowBits(data[2..2 + i])
    {
      assert data[2..2 + i + 1][..i] == data[2..2 + i];
      length := (length * 256) % USIZE + data[2 + i];
    }
    return Found(Tlv(tag, length, 2 + numBytes));
  }

  /** Where a value ends. The sum of two `usize` values wraps around in a release build. */
  function End(t: Tlv): nat {
    (t.header + t.length) % USIZE
  }

  function StripSign(content: Bytes): Bytes {
    if content != [] && content[0] == 0 then content[1..] else content
  }

  /** The bytes of one INTEGER without its sign byte, and what follows it. */
  function ReadInteger(data: Bytes): Parsed<(Bytes, Bytes)> {
    match ReadTagLength(data)
    case Nothing => Nothing
    case Panic => Panic
    case Found(t) =>
      if t.tag != 2 then Nothing
      else if End(t) < t.header || End(t) > |data| then Panic
      else
        var content := data[t.header..End(t)];
        Found((StripSign(content), data[End(t)..]))
  }

  function ParsePkcs1(der: Bytes): Parsed<Key> {
    match ReadTagLength(der)
    case Nothing => Nothing
    case Panic => Panic
    case Found(t) =>
      if t.tag != 0x30 then Nothing
      else
        var n := ReadInteger(der[t.header..]);
        if !n.Found? then (if n.Panic? then Panic else Nothing)
        else
          var e := ReadInteger(n.value.1);
          if !e.Found? then (if e.Panic? then Panic else Nothing)
          else Found(Key(n.value.0, e.value.0))
  }

  function ParseSpki(der: Bytes): Parsed<Key> {
    match ReadTagLength(der)
    case Nothing => Nothing
    case Panic => Panic
    case Found(t) => if t.tag != 0x30 then Nothing else ParseAlgorithm(der[t.header..])
  }

  /** Skips the algorithm SEQUENCE, whatever it holds. */
  function ParseAlgorithm(inner: Bytes): Parsed<Key> {
    match ReadTagLength(inner)
    case Nothing => Nothing
    case Panic => Panic
    case Found(t) =>
      if t.tag != 0x30 then Nothing
      else if End(t) > |inner| then Panic
      else ParseBitString(inner[End(t)..])
  }

  /** Skips the unused-bits byte of the BIT STRING. */
  function ParseBitString(data: Bytes): Parsed<Key> {
    match ReadTagLength(data)
    case Nothing => Nothing
    case Panic => Panic
    case Found(t) =>
      if t.tag != 3 then Nothing
      else if t.header + 1 > |data| then Panic
      else ParsePkcs1(data[t.header + 1..])
  }

  /** SPKI first; PKCS#1 only when that finds nothing. */
  function ParseRsaKey(der: Bytes): Parsed<Key> {
    var spki := ParseSpki(der);
    if spki == Nothing then ParsePkcs1(der) else spki
  }

  // ---- When the reader panics ----

  /** The data starts with an element of the tag. */
  predicate Starts(data: Bytes, tag: int) {
    ReadTagLength(data).Found? && ReadTagLength(data).value.tag == tag
  }

  /** The data starts with an INTEGER that claims more bytes than follow. */
  predicate IntegerOverruns(data: Bytes) {
    Starts(data, 2) && ReadTagLength(data).value.header + ReadTagLength(data).value.length > |data|
  }

  /** One of the two numbers overruns; the length of the SEQUENCE itself is never looked at. */
  predicate Pkcs1Overruns(der: Bytes) {
    && Starts(der, 0x30)
    && var body := der[ReadTagLength(der).value.header..];
    IntegerOverruns(body) || (ReadInteger(body).Found? && IntegerOverruns(ReadInteger(body).value.1))
  }

  /** Nothing follows the head of the BIT STRING, or the key in it overruns. */
  predicate BitStringOverruns(data: Bytes) {
    && Starts(data, 3)
    && var h := ReadTagLength(data).value.header;
    h == |data| || Pkcs1Overruns(data[h + 1..])
  }

  /**
   * The algorithm claims more than follows, short of wrapping around, or the BIT STRING
   * overruns, wherever a wrapped-around length makes the reader look for it.
   */
  predicate SpkiOverruns(der: Bytes) {
    && Starts(der, 0x30)
    && var inner := der[ReadTagLength(der).value.header..];
    && Starts(inner, 0x30)
    && var t := ReadTagLength(inner).value;
    if t.header + t.length < USIZE && t.header + t.length > |inner| then true else BitStringOverruns(inner[End(t)..])
  }

  lemma HeaderFits(data: Bytes)
    requires ReadTagLength(data).Found?
    ensures 2 <= ReadTagLength(data).value.header <= |data| && ReadTagLength(data).value.header <= 129
    ensures ReadTagLength(data).value.length < USIZE
  {
  }

  lemma IntegerPanics(data: Bytes)
    requires |data| <= MAX_SLICE
    ensures ReadInteger(data).Panic? <==> IntegerOverruns(data)
    ensures ReadInteger(data).Found? ==> |ReadInteger(data).value.1| <= |data|
  {
    if ReadTagLength(data).Found? {
      HeaderFits(data);
      var t := ReadTagLength(data).value;
      assert t.header + t.length < USIZE ==> End(t) == t.header + t.length;
      assert t.header + t.length >= USIZE ==> End(t) == t.header + t.length - USIZE;
    }
  }

  lemma Pkcs1Panics(der: Bytes)
    requires |der| <= MAX_SLICE
    ensures ParsePkcs1(der).Panic? <==> Pkcs1Overruns(der)
  {
    if Starts(der, 0x30) {
      HeaderFits(der);
      var body := der[ReadTagLength(der).value.header..];
      IntegerPanics(body);
      if ReadInteger(body).Found? {
        IntegerPanics(ReadInteger(body).value.1);
      }
    }
  }

  lemma BitStringPanics(data: Bytes)
    requires |data| <= MAX_SLICE
    ensures ParseBitString(data).Panic? <==> BitStringOverruns(data)
  {
    if Starts(data, 3) {
      HeaderFits(data);
      var h := ReadTagLength(data).value.header;
      if h < |data| {
        Pkcs1Panics(data[h + 1..]);
      }
    }
  }

  lemma SpkiPanics(der: Bytes)
    requires |der| <= MAX_SLICE
    ensures ParseSpki(der).Panic? <==> SpkiOverruns(der)
  {
    if Starts(der, 0x30) {
      HeaderFits(der);
      var inner := der[ReadTagLength(der).value.header..];
      if Starts(inner, 0x30) {
        EndOf(inner);
        var t := ReadTagLength(inner).value;
        if End(t) <= |inner| {
          BitStringPanics(inner[End(t)..]);
        }
      }
    }
  }

  lemma EndOf(data: Bytes)
    requires ReadTagLength(data).Found? && |data| <= MAX_SLICE
    ensures var t := ReadTagLength(data).value;
            End(t) > |data| <==> t.header + t.length < USIZE && t.header + t.length > |data|
  {
    HeaderFits(data);
    var t := ReadTagLength(data).value;
    assert t.header + t.length < USIZE ==> End(t) == t.header + t.length;
    assert t.header + t.length >= USIZE ==> End(t) == t.header + t.length - USIZE;
  }

  /** A key that overruns starts with an INTEGER, which the SPKI attempt does not take. */
  lemma OverrunIsNoSpki(der: Bytes)
    requires Pkcs1Overruns(der)
    ensures ParseSpki(der).Nothing?
  {
  }

  /** The reader panics on exactly the inputs in which a claimed length overruns what is there. */
  lemma PanicsExactly(der: Bytes)
    requires |der| <= MAX_SLICE
    ensures ParseRsaKey(der).Panic? <==> SpkiOverruns(der) || Pkcs1Overruns(der)
  {
    SpkiPanics(der);
    Pkcs1Panics(der);
    if Pkcs1Overruns(der) {
      OverrunIsNoSpki(der);
    }
  }

  /** A SEQUENCE with an INTEGER cut short after its head. */
  lemma CutShortIntegerPanics(length: Byte)
    requires 1 <= length < 128
    ensures ParseRsaKey([0x30, 2, 2, length]).Panic?
  {
    var der := [0x30, 2, 2, length];
    assert der[2..] == [2, length];
    assert IntegerOverruns([2, length]);
    PanicsExactly(der);
  }

  /** A SEQUENCE with an algorithm cut short after its head. */
  lemma CutShortAlgorithmPanics(length: Byte)
    requires 1 <= length < 128
    ensures ParseRsaKey([0x30, 2, 0x30, length]).Panic?
  {
    var der := [0x30, 2, 0x30, length];
    assert der[2..] == [0x30, length];
    PanicsExactly(der);
  }

  /** An INTEGER whose eight length bytes make its end wrap around to before its content. */
  lemma WrappedIntegerPanics(der: Bytes)
    requires |der| == 12 && der[..4] == [0x30, 10, 2, 0x88] && forall i :: 4 <= i < 12 ==> der[i] == 255
    ensures ParseRsaKey(der).Panic?
  {
    var body := der[2..];
    assert body[0] == der[2] && body[1] == der[3];
    assert der[..4][0] == der[0] && der[..4][1] == der[1] && der[..4][2] == der[2] && der[..4][3] == der[3];
    assert |body| == 10 && ReadTagLength(body).Found?;
    assert forall i :: 2 <= i < 10 ==> body[i] == der[i + 2];
    AllOnes(body[2..10]);
    assert IntegerOverruns(body);
    PanicsExactly(der);
  }

  lemma {:induction false} AllOnes(b: Bytes)
    requires |b| <= 8 && forall i :: 0 <= i < |b| ==> b[i] == 255
    ensures LowBits(b) == Bound(|b|) - 1
  {
    if b != [] {
      AllOnes(b[..|b| - 1]);
      SmallBounds();
    }
  }

  lemma SmallBounds()
    ensures Bound(0) == 1 && Bound(1) == 0x100 && Bound(2) == 0x1_0000 && Bound(3) == 0x100_0000
    ensures Bound(4) == 0x1_0000_0000 && Bound(5) == 0x100_0000_0000 && Bound(6) == 0x1_0000_0000_0000
    ensures Bound(7) == 0x100_0000_0000_0000 && Bound(8) == USIZE
  {
  }

  // ---- The encoding ----

  function FromBytes(b: Bytes): nat {
    if b == [] then 0 else 256 * FromBytes(b[..|b| - 1]) + b[|b| - 1]
  }

  /** Big-endian bytes without a leading zero; nothing for zero. */
  function Minimal(n: nat): (b: Bytes)
    ensures b == [] <==> n == 0
    ensures b != [] ==> b[0] != 0
  {
    if n == 0 then [] else Minimal(n / 256) + [n % 256]
  }

  lemma {:induction false} MinimalIsValue(n: nat)
    ensures FromBytes(Minimal(n)) == n
  {
    if n > 0 {
      MinimalIsValue(n / 256);
      assert Minimal(n)[..|Minimal(n)| - 1] == Minimal(n / 256);
    }
  }

  /** Section 8.1.3 of ITU-T X.690: the short form below 128, else a count of length bytes. */
  function LengthOctets(n: nat): Bytes
    requires n < USIZE
  {
    MinimalFits(n, 8);
    if n < 128 then [n] else [128 + |Minimal(n)|] + Minimal(n)
  }

  function Bound(k: nat): (m: nat)
    ensures m >= 1
  {
    if k == 0 then 1 else 256 * Bound(k - 1)
  }

  lemma {:induction false} MinimalFits(n: nat, k: nat)
    requires n < Bound(k)
    ensures |Minimal(n)| <= k
    decreases k
  {
    if n > 0 {
      MinimalFits(n / 256, k - 1);
    }
  }

  /** Section 8.3 of ITU-T X.690: two's complement, so a set high bit needs a zero byte in front. */
  function IntegerContent(n: nat): Bytes
    requires n > 0
  {
    if Minimal(n)[0] >= 128 then [0] + Minimal(n) else Minimal(n)
  }

  function Wrap(tag: Byte, content: Bytes): Bytes
    requires |content| < USIZE
  {
    [tag] + LengthOctets(|content|) + content
  }

  lemma WrapLength(tag: Byte, content: Bytes)
    requires |content| < USIZE
    ensures |Wrap(tag, content)| <= |content| + 10
  {
    MinimalFits(|content|, 8);
  }

  /** Positive integers short enough that every encoding below fits in one slice. */
  predicate Encodable(n: nat, e: nat) {
    n > 0 && e > 0 && |IntegerContent(n)| + |IntegerContent(e)| <= MAX_SLICE - 128
  }

  /** Appendix A.1.1 of RFC 8017. */
  function Pkcs1(n: nat, e: nat): (der: Bytes)
    requires Encodable(n, e)
    ensures |der| <= MAX_SLICE - 64
  {
    WrapLength(2, IntegerContent(n));
    WrapLength(2, IntegerContent(e));
    var body := Wrap(2, IntegerContent(n)) + Wrap(2, IntegerContent(e));
    WrapLength(0x30, body);
    Wrap(0x30, body)
  }

  /** SEQUENCE { OID 1.2.840.113549.1.1.1, NULL }. */
  const RSA_ALGORITHM: Bytes := [0x30, 13, 6, 9, 0x2a, 0x86, 0x48, 0x86, 0xf7, 0x0d, 1, 1, 1, 5, 0]

  /** Section 4.1 of RFC 5280. */
  function Spki(pkcs1: Bytes): Bytes
    requires |pkcs1| <= MAX_SLICE - 64
  {
    WrapLength(3, [0] + pkcs1);
    Wrap(0x30, RSA_ALGORITHM + Wrap(3, [0] + pkcs1))
  }

  // ---- Round trip ----

  /** Within 64 bits no length bit is lost. */
  lemma {:induction false} LowBitsExact(b: Bytes)
    requires FromBytes(b) < USIZE
    ensures LowBits(b) == FromBytes(b)
  {
    if b != [] {
      LowBitsExact(b[..|b| - 1]);
    }
  }

  lemma ReadsHeader(tag: Byte, content: Bytes, rest: Bytes)
    requires |content| < USIZE
    ensures ReadTagLength(Wrap(tag, content) + rest) == Found(Tlv(tag, |content|, 1 + |LengthOctets(|content|)|))
  {
    var n, data := |content|, Wrap(tag, content) + rest;
    MinimalFits(n, 8);
    if n >= 128 {
      var k := |Minimal(n)|;
      assert data[1] == 128 + k;
      assert data[2..2 + k] == Minimal(n);
      MinimalIsValue(n);
      LowBitsExact(Minimal(n));
    }
  }

  lemma ReadsBody(tag: Byte, content: Bytes, rest: Bytes)
    requires |content| < USIZE
    ensures var data, h := Wrap(tag, content) + rest, 1 + |LengthOctets(|content|)|;
            |data| == h + |content| + |rest| && data[h..h + |content|] == content && data[h + |content|..] == rest
            && data[h..] == content + rest
  {
  }

  lemma ReadsIntegerContent(content: Bytes, rest: Bytes)
    requires |content| <= MAX_SLICE
    ensures ReadInteger(Wrap(2, content) + rest) == Found((StripSign(content), rest))
  {
    WrapLength(2, content);
    ReadsHeader(2, content, rest);
    ReadsBody(2, content, rest);
    var t := ReadTagLength(Wrap(2, content) + rest).value;
    assert t.header + |content| == |Wrap(2, content)|;
    assert End(t) == t.header + |content|;
  }

  lemma ReadsInteger(n: nat, rest: Bytes)
    requires n > 0 && |IntegerContent(n)| <= MAX_SLICE
    ensures ReadInteger(Wrap(2, IntegerContent(n)) + rest) == Found((Minimal(n), rest))
  {
    ReadsIntegerContent(IntegerContent(n), rest);
    assert ([0] + Minimal(n))[1..] == Minimal(n);
  }

  /** The two integers inside the outer SEQUENCE. */
  lemma ReadsTwoIntegers(n: nat, e: nat, rest: Bytes)
    requires n > 0 && e > 0 && |IntegerContent(n)| <= MAX_SLICE && |IntegerContent(e)| <= MAX_SLICE
    ensures var first := ReadInteger(Wrap(2, IntegerContent(n)) + Wrap(2, IntegerContent(e)) + rest);
            first.Found? && first.value.0 == Minimal(n) && ReadInteger(first.value.1) == Found((Minimal(e), rest))
  {
    var a, b := Wrap(2, IntegerContent(n)), Wrap(2, IntegerContent(e));
    assert a + b + rest == a + (b + rest);
    ReadsInteger(n, b + rest);
    ReadsInteger(e, rest);
  }

  /** A wrapped value is stepped into past its header. */
  lemma StepsInto(tag: Byte, content: Bytes, rest: Bytes)
    requires |content| < USIZE
    ensures var data := Wrap(tag, content) + rest;
            var t := ReadTagLength(data);
            t.Found? && t.value.tag == tag && t.value.length == |content| && t.value.header <= |data|
            && data[t.value.header..] == content + rest
  {
    ReadsHeader(tag, content, rest);
    ReadsBody(tag, content, rest);
  }

  lemma Pkcs1ReadsBack(n: nat, e: nat, rest: Bytes)
    requires Encodable(n, e)
    ensures ParsePkcs1(Pkcs1(n, e) + rest) == Found(Key(Minimal(n), Minimal(e)))
  {
    WrapLength(2, IntegerContent(n));
    WrapLength(2, IntegerContent(e));
    StepsInto(0x30, Wrap(2, IntegerContent(n)) + Wrap(2, IntegerContent(e)), rest);
    ReadsTwoIntegers(n, e, rest);
  }

  lemma BitStringReadsBack(n: nat, e: nat)
    requires Encodable(n, e)
    ensures ParseBitString(Wrap(3, [0] + Pkcs1(n, e))) == Found(Key(Minimal(n), Minimal(e)))
  {
    var key := Pkcs1(n, e);
    var bits := Wrap(3, [0] + key);
    StepsInto(3, [0] + key, []);
    assert bits + [] == bits && [0] + key + [] == [0] + key;
    var h := ReadTagLength(bits).value.header;
    assert bits[h + 1..] == bits[h..][1..] == key;
    Pkcs1ReadsBack(n, e, []);
    assert key + [] == key;
  }

  lemma SkipsShortSequence(inner: Bytes, length: nat)
    requires |inner| >= 2 + length && inner[0] == 0x30 && inner[1] == length < 128
    ensures ParseAlgorithm(inner) == ParseBitString(inner[2 + length..])
  {
    assert End(Tlv(0x30, length, 2)) == 2 + length;
  }

  lemma SkipsAlgorithm(bits: Bytes)
    ensures ParseAlgorithm(RSA_ALGORITHM + bits) == ParseBitString(bits)
  {
    var inner := RSA_ALGORITHM + bits;
    assert |inner| == 15 + |bits| && inner[0] == 0x30 && inner[1] == 13;
    SkipsShortSequence(inner, 13);
    assert inner[15..] == bits;
  }

  lemma ParsesSequence(inner: Bytes)
    requires |inner| < USIZE
    ensures ParseSpki(Wrap(0x30, inner)) == ParseAlgorithm(inner)
  {
    StepsInto(0x30, inner, []);
    assert Wrap(0x30, inner) + [] == Wrap(0x30, inner) && inner + [] == inner;
  }

  lemma SpkiReadsBack(n: nat, e: nat)
    requires Encodable(n, e)
    ensures ParseSpki(Spki(Pkcs1(n, e))) == Found(Key(Minimal(n), Minimal(e)))
  {
    var bits := Wrap(3, [0] + Pkcs1(n, e));
    WrapLength(3, [0] + Pkcs1(n, e));
    BitStringReadsBack(n, e);
    SkipsAlgorithm(bits);
    ParsesSequence(RSA_ALGORITHM + bits);
  }

  lemma SpkiSkipsPkcs1(n: nat, e: nat)
    requires Encodable(n, e)
    ensures ParseSpki(Pkcs1(n, e)) == Nothing
  {
    WrapLength(2, IntegerContent(n));
    WrapLength(2, IntegerContent(e));
    ParsesSequence(Wrap(2, IntegerContent(n)) + Wrap(2, IntegerContent(e)));
    ReadsHeader(2, IntegerContent(n), Wrap(2, IntegerContent(e)));
  }

  /**
   * Either encoding of a key gives back the minimal big-endian bytes of modulus and
   * exponent, as section 6.3.1 of RFC 7518 wants them.
   */
  lemma RsaKeyRoundTrip(n: nat, e: nat)
    requires Encodable(n, e)
    ensures ParseRsaKey(Pkcs1(n, e)) == Found(Key(Minimal(n), Minimal(e)))
    ensures ParseRsaKey(Spki(Pkcs1(n, e))) == Found(Key(Minimal(n), Minimal(e)))
    ensures FromBytes(Minimal(n)) == n && FromBytes(Minimal(e)) == e && Minimal(n)[0] != 0 && Minimal(e)[0] != 0
  {
    SpkiSkipsPkcs1(n, e);
    Pkcs1ReadsBack(n, e, []);
    assert Pkcs1(n, e) + [] == Pkcs1(n, e);
    SpkiReadsBack(n, e);
    MinimalIsValue(n);
    MinimalIsValue(e);
  }
}
