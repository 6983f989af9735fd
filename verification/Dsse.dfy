/**
 * The pre-authenticated encoding and envelope verification
 * (crates/specton-attest/src/verifier.rs).
 *
 * Base64 and the signature primitives are parameters.
 */
module Dsse {
  import opened Common

  const SPACE: Byte := 32

  /** The bytes of `6 DSSEv1 `: the length-prefixed name every encoding starts with. */
  const HEADER: Bytes := [54, 32, 68, 83, 83, 69, 118, 49, 32]

  // ---- Decimal lengths ----

  function Decimal(n: nat): (d: Bytes)
    ensures |d| >= 1
    ensures forall i :: 0 <= i < |d| ==> 48 <= d[i] <= 57
    ensures d[0] == 48 ==> n == 0
    ensures n == 0 ==> d == [48]
  {
    if n < 10 then [48 + n] else Decimal(n / 10) + [48 + n % 10]
  }

  /** Reads a length back; an empty run, a non-digit or a needless leading zero is refused. */
  function ParseDecimal(d: Bytes): (n: Option<nat>)
  {
    if d == [] || (exists i :: 0 <= i < |d| && !(48 <= d[i] <= 57)) || (|d| > 1 && d[0] == 48) then None
    else Some(Value(d))
  }

  function Value(d: Bytes): nat
    requires forall i :: 0 <= i < |d| ==> 48 <= d[i] <= 57
  {
    if d == [] then 0 else 10 * Value(d[..|d| - 1]) + (d[|d| - 1] - 48)
  }

  lemma {:induction false} ValueOfDecimal(n: nat)
    ensures Value(Decimal(n)) == n
  {
    var d := Decimal(n);
    if n < 10 {
      assert Value(d[..0]) == 0;
    } else {
      ValueOfDecimal(n / 10);
      assert d[..|d| - 1] == Decimal(n / 10);
    }
  }

  lemma DecimalRoundTrip(n: nat)
    ensures ParseDecimal(Decimal(n)) == Some(n)
  {
    ValueOfDecimal(n);
  }

  lemma {:induction false} LeadingDigitCounts(d: Bytes)
    requires d != [] && forall i :: 0 <= i < |d| ==> 48 <= d[i] <= 57
    requires d[0] != 48
    ensures Value(d) >= 1
  {
    if |d| > 1 {
      LeadingDigitCounts(d[..|d| - 1]);
    }
  }

  lemma DecimalOfTen(n: nat, last: nat)
    requires n >= 1 && last < 10
    ensures Decimal(10 * n + last) == Decimal(n) + [48 + last]
  {
    assert (10 * n + last) / 10 == n && (10 * n + last) % 10 == last;
  }

  /** Only the text `Decimal` writes is accepted. */
  lemma {:induction false} DecimalOfValue(d: Bytes)
    requires ParseDecimal(d).Some?
    ensures Decimal(ParseDecimal(d).value) == d
    decreases |d|
  {
    var front, last := d[..|d| - 1], d[|d| - 1] - 48;
    assert d == front + [48 + last];
    if |d| == 1 {
      assert Value(front) == 0;
    } else {
      LeadingDigitCounts(front);
      DecimalOfValue(front);
      DecimalOfTen(Value(front), last);
    }
  }

  // ---- The encoding and its inverse ----

  function Pae(payloadType: Bytes, payload: Bytes): Bytes {
    HEADER + Decimal(|payloadType|) + [SPACE] + payloadType + [SPACE] + Decimal(|payload|) + [SPACE] + payload
  }

  method DssePae(payloadType: Bytes, payload: Bytes) returns (pae: Bytes)
    ensures pae == Pae(payloadType, payload)
  {
    pae := [];
    var prefix: Bytes := [68, 83, 83, 69, 118, 49];
    assert Decimal(|prefix|) == [54];
    pae := pae + Decimal(|prefix|) + [SPACE];
    pae := pae + prefix;
    pae := pae + [SPACE] + Decimal(|payloadType|) + [SPACE];
    pae := pae + payloadType;
    pae := pae + [SPACE] + Decimal(|payload|) + [SPACE];
    pae := pae + payload;
    assert [] + [54] + [SPACE] + prefix + [SPACE] == HEADER;
    assert pae ==
           HEADER + Decimal(|payloadType|) + [SPACE] + payloadType + [SPACE] + Decimal(|payload|) + [SPACE] + payload;
  }

  /** The position of the first space, or the length when there is none. */
  function FirstSpace(b: Bytes): (k: nat)
    ensures k <= |b|
  {
    if b == [] || b[0] == SPACE then 0 else 1 + FirstSpace(b[1..])
  }

  /** A decimal length, a space, and what follows. */
  function ReadLength(b: Bytes): Option<(nat, Bytes)> {
    var k := FirstSpace(b);
    if k == |b| then None
    else
      var n := ParseDecimal(b[..k]);
      if n.None? then None else Some((n.value, b[k + 1..]))
  }

  function Decode(b: Bytes): Option<(Bytes, Bytes)> {
    if !(HEADER <= b) then None
    else
      var t := ReadLength(b[|HEADER|..]);
      if t.None? || |t.value.1| < t.value.0 + 1 || t.value.1[t.value.0] != SPACE then None
      else
        var p := ReadLength(t.value.1[t.value.0 + 1..]);
        if p.None? || |p.value.1| != p.value.0 then None
        else Some((t.value.1[..t.value.0], p.value.1))
  }

  lemma {:induction false} FirstSpaceAfter(d: Bytes, rest: Bytes)
    requires SPACE !in d
    ensures FirstSpace(d + [SPACE] + rest) == |d|
  {
    var b := d + [SPACE] + rest;
    if d != [] {
      assert b[1..] == d[1..] + [SPACE] + rest;
      FirstSpaceAfter(d[1..], rest);
    }
  }

  lemma {:induction false} FirstSpaceStops(b: Bytes)
    ensures FirstSpace(b) < |b| ==> b[FirstSpace(b)] == SPACE
  {
    if b != [] && b[0] != SPACE {
      FirstSpaceStops(b[1..]);
    }
  }

  lemma ReadsWrittenLength(n: nat, rest: Bytes)
    ensures ReadLength(Decimal(n) + [SPACE] + rest) == Some((n, rest))
  {
    var d := Decimal(n);
    FirstSpaceAfter(d, rest);
    DecimalRoundTrip(n);
    var b := d + [SPACE] + rest;
    assert b[..|d|] == d && b[|d| + 1..] == rest;
  }

  lemma WritesReadLength(b: Bytes)
    requires ReadLength(b).Some?
    ensures b == Decimal(ReadLength(b).value.0) + [SPACE] + ReadLength(b).value.1
  {
    var k := FirstSpace(b);
    FirstSpaceStops(b);
    DecimalOfValue(b[..k]);
    assert b == b[..k] + [b[k]] + b[k + 1..];
  }

  lemma PaeNested(t: Bytes, p: Bytes)
    ensures Pae(t, p) == HEADER + (Decimal(|t|) + [SPACE] + (t + [SPACE] + (Decimal(|p|) + [SPACE] + p)))
  {
    Regroup(HEADER, Decimal(|t|), [SPACE], t, [SPACE], Decimal(|p|), [SPACE], p);
  }

  lemma Regroup(a: Bytes, b: Bytes, c: Bytes, d: Bytes, e: Bytes, f: Bytes, g: Bytes, h: Bytes)
    ensures a + b + c + d + e + f + g + h == a + (b + c + (d + e + (f + g + h)))
  {
    var x := f + g + h;
    assert a + b + c + d + e + f + g + h == a + b + c + d + e + x;
    var y := d + e + x;
    assert a + b + c + d + e + x == a + b + c + y;
    assert a + b + c + y == a + (b + c + y);
  }

  lemma DecodeInverts(payloadType: Bytes, payload: Bytes)
    ensures Decode(Pae(payloadType, payload)) == Some((payloadType, payload))
  {
    var b := Pae(payloadType, payload);
    var tail := Decimal(|payload|) + [SPACE] + payload;
    var body := payloadType + [SPACE] + tail;
    PaeNested(payloadType, payload);
    assert b[|HEADER|..] == Decimal(|payloadType|) + [SPACE] + body;
    ReadsWrittenLength(|payloadType|, body);
    assert body[|payloadType|] == SPACE && body[|payloadType| + 1..] == tail && body[..|payloadType|] == payloadType;
    ReadsWrittenLength(|payload|, payload);
  }

  lemma ReassemblesPae(b: Bytes, n: nat, body: Bytes, payload: Bytes)
    requires HEADER <= b && ReadLength(b[|HEADER|..]) == Some((n, body))
    requires |body| >= n + 1 && body[n] == SPACE && ReadLength(body[n + 1..]) == Some((|payload|, payload))
    ensures Pae(body[..n], payload) == b
  {
    var rest, tail := b[|HEADER|..], body[n + 1..];
    assert b == HEADER + rest;
    WritesReadLength(rest);
    WritesReadLength(tail);
    assert body == body[..n] + [SPACE] + tail;
    Substitute(b, rest, body, tail, body[..n], payload);
  }

  lemma Substitute(b: Bytes, rest: Bytes, body: Bytes, tail: Bytes, payloadType: Bytes, payload: Bytes)
    requires b == HEADER + rest && rest == Decimal(|payloadType|) + [SPACE] + body
    requires body == payloadType + [SPACE] + tail && tail == Decimal(|payload|) + [SPACE] + payload
    ensures Pae(payloadType, payload) == b
  {
    PaeNested(payloadType, payload);
  }

  /** Nothing but an encoding decodes: the decoder's domain is exactly what `dsse_pae` writes. */
  lemma DecodeOnlyEncodings(b: Bytes)
    requires Decode(b).Some?
    ensures Pae(Decode(b).value.0, Decode(b).value.1) == b
  {
    var t := ReadLength(b[|HEADER|..]).value;
    var p := ReadLength(t.1[t.0 + 1..]).value;
    ReassemblesPae(b, t.0, t.1, p.1);
  }

  /** Equal encodings come from the same payload type and the same payload. */
  lemma PaeInjective(t1: Bytes, p1: Bytes, t2: Bytes, p2: Bytes)
    requires Pae(t1, p1) == Pae(t2, p2)
    ensures t1 == t2 && p1 == p2
  {
    DecodeInverts(t1, p1);
    DecodeInverts(t2, p2);
  }

  // ---- The encoding of the DSSE protocol ----

  /** The bytes of `DSSEv1 `. */
  const STANDARD_HEADER: Bytes := [68, 83, 83, 69, 118, 49, 32]

  /** The protocol's own layout: the version name without a length in front. */
  function StandardPae(payloadType: Bytes, payload: Bytes): Bytes {
    STANDARD_HEADER + Decimal(|payloadType|) + [SPACE] + payloadType + [SPACE] + Decimal(|payload|) + [SPACE] + payload
  }

  /** It is the code's layout without the two bytes in front. */
  lemma PaeIsTwoBytesLonger(payloadType: Bytes, payload: Bytes)
    ensures Pae(payloadType, payload) == [54, SPACE] + StandardPae(payloadType, payload)
  {
    PaeNested(payloadType, payload);
    Regroup(STANDARD_HEADER, Decimal(|payloadType|), [SPACE], payloadType, [SPACE], Decimal(|payload|), [SPACE],
        payload);
    assert HEADER == [54, SPACE] + STANDARD_HEADER;
  }

  /** No encoding the code makes is one the protocol makes. */
  lemma NeverStandard(t1: Bytes, p1: Bytes, t2: Bytes, p2: Bytes)
    ensures Pae(t1, p1) != StandardPae(t2, p2)
  {
    PaeIsTwoBytesLonger(t1, p1);
    assert Pae(t1, p1)[0] == 54;
    assert StandardPae(t2, p2)[0] == 68;
  }

  // ---- Envelopes ----

  datatype Signature = Signature(keyid: string, sig: string)

  datatype Envelope = Envelope(payloadType: Bytes, payload: string, signatures: seq<Signature>)

  /** `owns` answers for key ids, `check` for one signature over one encoding. */
  datatype Verifier = Verifier(owns: string -> bool, check: (Bytes, Bytes) -> bool)

  datatype VerifyVerdict = Verified | Unverified | BadBase64

  ghost predicate Vouches(v: Verifier, s: Signature, pae: Bytes, sig: Bytes) {
    v.owns(s.keyid) && v.check(pae, sig)
  }

  /** Some verifier accepts signature `i`, which decodes. */
  ghost predicate Accepted(b64: string -> Option<Bytes>, sigs: seq<Signature>, vs: seq<Verifier>, pae: Bytes, i: nat)
    requires i < |sigs|
  {
    b64(sigs[i].sig).Some? && exists j :: 0 <= j < |vs| && Vouches(vs[j], sigs[i], pae, b64(sigs[i].sig).value)
  }

  /** The first signature that is either accepted or undecodable decides. */
  ghost predicate Decides(b64: string -> Option<Bytes>, sigs: seq<Signature>, vs: seq<Verifier>, pae: Bytes, i: nat)
    requires i < |sigs|
  {
    && (b64(sigs[i].sig).None? || Accepted(b64, sigs, vs, pae, i))
    && forall k :: 0 <= k < i ==> b64(sigs[k].sig).Some? && !Accepted(b64, sigs, vs, pae, k)
  }

  method VerifyEnvelope(b64: string -> Option<Bytes>, env: Envelope, vs: seq<Verifier>) returns (r: VerifyVerdict)
    ensures b64(env.payload).None? ==> r == BadBase64
    ensures b64(env.payload).Some? ==>
              var pae := Pae(env.payloadType, b64(env.payload).value);
              && (r == Verified <==>
                  exists i :: 0 <= i < |env.signatures| && Decides(b64, env.signatures, vs, pae, i)
                      && Accepted(b64, env.signatures, vs, pae, i))
              && (r == BadBase64 <==>
                  exists i :: 0 <= i < |env.signatures| && Decides(b64, env.signatures, vs, pae, i)
                      && b64(env.signatures[i].sig).None?)
              && (r == Unverified <==> forall i :: 0 <= i < |env.signatures| ==>
                  b64(env.signatures[i].sig).Some? && !Accepted(b64, env.signatures, vs, pae, i))
  {
    var payload := b64(env.payload);
    if payload.None? {
      return BadBase64;
    }
    var pae := DssePae(env.payloadType, payload.value);
    var sigs := env.signatures;
    for i := 0 to |sigs|
      invariant forall k :: 0 <= k < i ==> b64(sigs[k].sig).Some? && !Accepted(b64, sigs, vs, pae, k)
    {
      var sigBytes := b64(sigs[i].sig);
      if sigBytes.None? {
        assert Decides(b64, sigs, vs, pae, i);
        return BadBase64;
      }
      for j := 0 to |vs|
        invariant forall k :: 0 <= k < j ==> !Vouches(vs[k], sigs[i], pae, sigBytes.value)
      {
        if !vs[j].owns(sigs[i].keyid) {
          continue;
        }
        if vs[j].check(pae, sigBytes.value) {
          assert Vouches(vs[j], sigs[i], pae, sigBytes.value);
          assert Accepted(b64, sigs, vs, pae, i) && Decides(b64, sigs, vs, pae, i);
          return Verified;
        }
      }
    }
    return Unverified;
  }

  /**
   * If every verifier only accepts signatures made over a (type, payload) pair that
   * was really signed, an accepted envelope carries such a pair unchanged.
   */
  lemma AcceptedMeansSigned(b64: string -> Option<Bytes>, env: Envelope, vs: seq<Verifier>,
                            signed: set<(Bytes, Bytes)>, i: nat)
    requires i < |env.signatures| && b64(env.payload).Some?
    requires forall j, m, s :: 0 <= j < |vs| && vs[j].check(m, s) ==> exists p :: p in signed && m == Pae(p.0, p.1)
    requires Accepted(b64, env.signatures, vs, Pae(env.payloadType, b64(env.payload).value), i)
    ensures (env.payloadType, b64(env.payload).value) in signed
  {
    var payload, sigs := b64(env.payload).value, env.signatures;
    var pae := Pae(env.payloadType, payload);
    var j :| 0 <= j < |vs| && Vouches(vs[j], sigs[i], pae, b64(sigs[i].sig).value);
    assert vs[j].check(pae, b64(sigs[i].sig).value);
    var p :| p in signed && pae == Pae(p.0, p.1);
    PaeInjective(env.payloadType, payload, p.0, p.1);
  }

  /**
   * If every verifier only accepts signatures made over encodings of the DSSE protocol,
   * as other tools make them, no envelope verifies.
   */
  lemma StandardSignaturesNeverVerify(b64: string -> Option<Bytes>, env: Envelope, vs: seq<Verifier>, i: nat)
    requires i < |env.signatures| && b64(env.payload).Some?
    requires forall j, m, s :: 0 <= j < |vs| && vs[j].check(m, s) ==> IsStandard(m)
    ensures !Accepted(b64, env.signatures, vs, Pae(env.payloadType, b64(env.payload).value), i)
  {
    var payload, sigs := b64(env.payload).value, env.signatures;
    var pae := Pae(env.payloadType, payload);
    forall t, p
      ensures pae != StandardPae(t, p)
    {
      NeverStandard(env.payloadType, payload, t, p);
    }
  }

  ghost predicate IsStandard(m: Bytes) {
    exists t, p :: m == StandardPae(t, p)
  }
}
