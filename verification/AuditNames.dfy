/**
 * Names of exported audit objects (`export_object_key` in crates/specton-audit/src/export.rs):
 * a date, an hour of two digits, the range and an extension.
 */
module AuditNames {
  import opened Text

  /** The date in its printed form, which may be any text, and the hour. */
  datatype Stamp = Stamp(date: string, hour: Hour)

  type Hour = h: int | 0 <= h < 24

  function Digit(d: int): char
    requires 0 <= d < 10
  {
    "0123456789"[d]
  }

  function Digits(n: nat): (s: string)
    ensures s != "" && forall i :: 0 <= i < |s| ==> '0' <= s[i] <= '9'
  {
    if n < 10 then [Digit(n)] else Digits(n / 10) + [Digit(n % 10)]
  }

  function IntText(n: int): string {
    if n < 0 then ['-'] + Digits(-n) else Digits(n)
  }

  function TwoDigits(h: Hour): (s: string)
    ensures |s| == 2 && '/' !in s
  {
    [Digit(h / 10), Digit(h % 10)]
  }

  function Extension(compressed: bool): string {
    if compressed then "jsonl.zst" else "jsonl"
  }

  /** The last segment after the hour. */
  function RangeText(from: int, to: int, compressed: bool): string {
    IntText(from) + ['-'] + (IntText(to) + ['.'] + Extension(compressed))
  }

  function ExportKey(at: Stamp, from: int, to: int, compressed: bool): string {
    "audit/" + at.date + ['/'] + (TwoDigits(at.hour) + ['-'] + RangeText(from, to, compressed))
  }

  // ---- Reading numbers back ----

  function Value(s: string): int {
    if s == "" then 0 else 10 * Value(s[..|s| - 1]) + (s[|s| - 1] as int - '0' as int)
  }

  lemma {:induction false} ValueOfDigits(n: nat)
    ensures Value(Digits(n)) == n
  {
    var s := Digits(n);
    if n < 10 {
      assert s[..0] == "" && Value("") == 0;
    } else {
      ValueOfDigits(n / 10);
      assert s[..|s| - 1] == Digits(n / 10);
    }
  }

  lemma DigitsInjective(a: nat, b: nat)
    requires Digits(a) == Digits(b)
    ensures a == b
  {
    ValueOfDigits(a);
    ValueOfDigits(b);
  }

  lemma Reassociate(s: string, c: char, x: string)
    ensures s + [c] + x == s + ([c] + x)
  {
  }

  /** A number printed before a separator can be told from what follows. */
  lemma DigitsBefore(a: nat, c: char, x: string, b: nat, y: string)
    requires !('0' <= c <= '9') && Digits(a) + ([c] + x) == Digits(b) + ([c] + y)
    ensures a == b && x == y
  {
    Reassociate(Digits(a), c, x);
    Reassociate(Digits(b), c, y);
    SplitOnceAt(Digits(a), c, x);
    SplitOnceAt(Digits(b), c, y);
    DigitsInjective(a, b);
  }

  lemma FirstChar(n: int, rest: string)
    ensures (IntText(n) + rest)[0] == '-' <==> n < 0
  {
  }

  lemma SameSign(a: int, x: string, b: int, y: string)
    requires IntText(a) + x == IntText(b) + y
    ensures a < 0 <==> b < 0
  {
    FirstChar(a, x);
    FirstChar(b, y);
  }

  lemma DropSign(s: string, x: string, t: string, y: string)
    requires ['-'] + s + x == ['-'] + t + y
    ensures s + x == t + y
  {
    assert (['-'] + s + x)[1..] == s + x && (['-'] + t + y)[1..] == t + y;
  }

  lemma NegativeText(n: int)
    requires n > 0
    ensures IntText(-n) == ['-'] + Digits(n)
  {
  }

  lemma NegativeBefore(a: int, c: char, x: string, b: int, y: string)
    requires a > 0 && b > 0 && !('0' <= c <= '9') && IntText(-a) + ([c] + x) == IntText(-b) + ([c] + y)
    ensures a == b && x == y
  {
    NegativeText(a);
    NegativeText(b);
    DropSign(Digits(a), [c] + x, Digits(b), [c] + y);
    DigitsBefore(a, c, x, b, y);
  }

  lemma IntBefore(a: int, c: char, x: string, b: int, y: string)
    requires !('0' <= c <= '9') && IntText(a) + ([c] + x) == IntText(b) + ([c] + y)
    ensures a == b && x == y
  {
    SameSign(a, [c] + x, b, [c] + y);
    if a < 0 {
      NegativeBefore(-a, c, x, -b, y);
    } else {
      DigitsBefore(a, c, x, b, y);
    }
  }

  lemma NoSlashInInt(n: int)
    ensures '/' !in IntText(n)
  {
  }

  lemma NoSlashInConcat(a: string, b: string)
    requires '/' !in a && '/' !in b
    ensures '/' !in a + b
  {
  }

  lemma NoSlashInRange(from: int, to: int, compressed: bool)
    ensures '/' !in RangeText(from, to, compressed)
  {
    NoSlashInInt(from);
    NoSlashInInt(to);
    NoSlashInConcat(IntText(to), ['.']);
    NoSlashInConcat(IntText(to) + ['.'], Extension(compressed));
    NoSlashInConcat(IntText(from), ['-']);
    NoSlashInConcat(IntText(from) + ['-'], IntText(to) + ['.'] + Extension(compressed));
  }

  lemma NoSlashInSegment(h: Hour, s: string)
    requires '/' !in s
    ensures '/' !in TwoDigits(h) + ['-'] + s && (TwoDigits(h) + ['-'] + s)[3..] == s
  {
    NoSlashInConcat(TwoDigits(h), ['-']);
    NoSlashInConcat(TwoDigits(h) + ['-'], s);
  }

  /** Whenever they are made, exports of different ranges or formats have different names. */
  lemma KeysTellRangesApart(at: Stamp, from: int, to: int, c: bool, at': Stamp, from': int, to': int, c': bool)
    requires ExportKey(at, from, to, c) == ExportKey(at', from', to', c')
    ensures from == from' && to == to' && c == c'
  {
    var s, t := RangeText(from, to, c), RangeText(from', to', c');
    NoSlashInRange(from, to, c);
    NoSlashInRange(from', to', c');
    NoSlashInSegment(at.hour, s);
    NoSlashInSegment(at'.hour, t);
    RSplitOnceAt("audit/" + at.date, '/', TwoDigits(at.hour) + ['-'] + s);
    RSplitOnceAt("audit/" + at'.date, '/', TwoDigits(at'.hour) + ['-'] + t);
    Reassociate(IntText(from), '-', IntText(to) + ['.'] + Extension(c));
    Reassociate(IntText(from'), '-', IntText(to') + ['.'] + Extension(c'));
    Reassociate(IntText(to), '.', Extension(c));
    Reassociate(IntText(to'), '.', Extension(c'));
    IntBefore(from, '-', IntText(to) + ['.'] + Extension(c), from', IntText(to') + ['.'] + Extension(c'));
    IntBefore(to, '.', Extension(c), to', Extension(c'));
    assert |Extension(true)| != |Extension(false)|;
  }

  lemma KeysDiffer(at: Stamp, from: int, to: int, c: bool, at': Stamp, from': int, to': int, c': bool)
    requires from != from'
    ensures ExportKey(at, from, to, c) != ExportKey(at', from', to', c')
  {
    if ExportKey(at, from, to, c) == ExportKey(at', from', to', c') {
      KeysTellRangesApart(at, from, to, c, at', from', to', c');
    }
  }

  lemma Flat(a: string, b: string, c: string, d: string)
    ensures a + ['-'] + (b + ['-'] + (c + ['.'] + d)) == a + "-" + b + "-" + c + "." + d
  {
  }

  lemma Joined(a: string, b: string, c: string)
    ensures a + b + ['/'] + c == a + b + "/" + c
  {
  }

  /** A key written out: the date, two digits of the hour, both ends of the range and the extension. */
  lemma KeyAsText(at: Stamp, from: int, to: int, compressed: bool)
    ensures ExportKey(at, from, to, compressed) ==
            "audit/" + at.date + "/"
            + (TwoDigits(at.hour) + "-" + IntText(from) + "-" + IntText(to) + "."
               + if compressed then "jsonl.zst" else "jsonl")
  {
    Flat(TwoDigits(at.hour), IntText(from), IntText(to), Extension(compressed));
    Joined("audit/", at.date, TwoDigits(at.hour) + ['-'] + RangeText(from, to, compressed));
  }

  /** Numbers are written in decimal without leading zeros, hours with both digits. */
  lemma {:induction false} NumbersAsText(n: nat, h: Hour)
    ensures Value(Digits(n)) == n && (Digits(n)[0] == '0' <==> n == 0)
    ensures Value(TwoDigits(h)) == h && |TwoDigits(h)| == 2
  {
    ValueOfDigits(n);
    NoLeadingZero(n);
    var s := TwoDigits(h);
    assert s[..1] == [s[0]] && [s[0]][..0] == "";
    assert Value([s[0]]) == h / 10;
  }

  lemma {:induction false} NoLeadingZero(n: nat)
    ensures Digits(n)[0] == '0' <==> n == 0
  {
    if n >= 10 {
      NoLeadingZero(n / 10);
    }
  }
}
