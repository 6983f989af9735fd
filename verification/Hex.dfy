/** Lower-case hexadecimal text, as `hex::encode` and `hex::decode` read and write it. */
module Hex {
  import opened Common

  function Digit(d: int): char
    requires 0 <= d < 16
  {
    "0123456789abcdef"[d]
  }

  function DigitValue(c: char): (v: Option<int>)
    ensures v.Some? ==> 0 <= v.value < 16
  {
    if '0' <= c <= '9' then Some(c as int - '0' as int)
    else if 'a' <= c <= 'f' then Some(c as int - 'a' as int + 10)
    else if 'A' <= c <= 'F' then Some(c as int - 'A' as int + 10)
    else None
  }

  function Encode(b: Bytes): (s: string)
    ensures |s| == 2 * |b|
  {
    if b == [] then "" else [Digit(b[0] / 16), Digit(b[0] % 16)] + Encode(b[1..])
  }

  /** Fails on odd length and on anything that is not a hexadecimal digit of either case. */
  function Decode(s: string): Option<Bytes> {
    if |s| == 0 then Some([])
    else if |s| == 1 then None
    else
      var hi, lo, rest := DigitValue(s[0]), DigitValue(s[1]), Decode(s[2..]);
      if hi.Some? && lo.Some? && rest.Some? then Some([16 * hi.value + lo.value] + rest.value) else None
  }

  /** Only digits and lower-case letters are written. */
  lemma {:induction false} EncodeIsLowerCase(b: Bytes)
    ensures forall i :: 0 <= i < |Encode(b)| ==> '0' <= Encode(b)[i] <= '9' || 'a' <= Encode(b)[i] <= 'f'
  {
    if b != [] {
      EncodeIsLowerCase(b[1..]);
    }
  }

  lemma DigitRoundTrip(d: int)
    requires 0 <= d < 16
    ensures DigitValue(Digit(d)) == Some(d)
  {
  }

  lemma ByteRoundTrip(x: Byte, rest: string)
    ensures Decode([Digit(x / 16), Digit(x % 16)] + rest) ==
            if Decode(rest).Some? then Some([x] + Decode(rest).value) else None
  {
    DigitRoundTrip(x / 16);
    DigitRoundTrip(x % 16);
    assert 16 * (x / 16) + x % 16 == x;
    assert ([Digit(x / 16), Digit(x % 16)] + rest)[2..] == rest;
  }

  lemma {:induction false} RoundTrip(b: Bytes)
    ensures Decode(Encode(b)) == Some(b)
  {
    if b != [] {
      RoundTrip(b[1..]);
      ByteRoundTrip(b[0], Encode(b[1..]));
      assert [b[0]] + b[1..] == b;
    }
  }
}
