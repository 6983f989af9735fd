/** The string operations of Rust's standard library that the parsers rely on. */
module Text {
  import opened Common

  /** The characters with the Unicode property White_Space. */
  predicate IsSpace(c: char) {
    var u := c as int;
    || 9 <= u <= 13 || u == 32 || u == 0x85 || u == 0xA0 || u == 0x1680 || 0x2000 <= u <= 0x200A
    || u == 0x2028 || u == 0x2029 || u == 0x202F || u == 0x205F || u == 0x3000
  }

  function TrimStart(s: string): string {
    if s != "" && IsSpace(s[0]) then TrimStart(s[1..]) else s
  }

  function TrimEnd(s: string): string {
    if s != "" && IsSpace(s[|s| - 1]) then TrimEnd(s[..|s| - 1]) else s
  }

  function Trim(s: string): string {
    TrimEnd(TrimStart(s))
  }

  ghost predicate Trimmed(s: string) {
    s == "" || (!IsSpace(s[0]) && !IsSpace(s[|s| - 1]))
  }

  ghost predicate Blank(s: string) {
    forall i :: 0 <= i < |s| ==> IsSpace(s[i])
  }

  lemma {:induction false} TrimDropsPadding(pad: string, s: string)
    requires Blank(pad) && Trimmed(s) && s != ""
    ensures Trim(pad + s) == s
  {
    if pad == "" {
      assert pad + s == s;
    } else {
      assert (pad + s)[1..] == pad[1..] + s;
      TrimDropsPadding(pad[1..], s);
    }
  }

  lemma {:induction false} TrimStartDrops(pad: string, s: string)
    requires Blank(pad) && (s == "" || !IsSpace(s[0]))
    ensures TrimStart(pad + s) == s
  {
    if pad == "" {
      assert pad + s == s;
    } else {
      assert (pad + s)[1..] == pad[1..] + s;
      TrimStartDrops(pad[1..], s);
    }
  }

  lemma {:induction false} TrimEndDrops(s: string, pad: string)
    requires Blank(pad) && (s == "" || !IsSpace(s[|s| - 1]))
    ensures TrimEnd(s + pad) == s
  {
    if pad == "" {
      assert s + pad == s;
    } else {
      assert (s + pad)[..|s + pad| - 1] == s + pad[..|pad| - 1];
      TrimEndDrops(s, pad[..|pad| - 1]);
    }
  }

  /** Trimming takes the blanks off both ends and nothing else. */
  lemma TrimExactly(front: string, s: string, back: string)
    requires Blank(front) && Blank(back) && Trimmed(s)
    ensures Trim(front + s + back) == s
  {
    if s == "" {
      assert front + s + back == (front + back) + "";
      TrimStartDrops(front + back, "");
    } else {
      assert front + s + back == front + (s + back);
      assert (s + back)[0] == s[0];
      TrimStartDrops(front, s + back);
      TrimEndDrops(s, back);
    }
  }

  function StripStart(s: string, c: char): string {
    if s != "" && s[0] == c then StripStart(s[1..], c) else s
  }

  function StripEnd(s: string, c: char): string {
    if s != "" && s[|s| - 1] == c then StripEnd(s[..|s| - 1], c) else s
  }

  /** `trim_matches(c)`. */
  function StripBoth(s: string, c: char): string {
    StripEnd(StripStart(s, c), c)
  }

  lemma Unquoted(c: char, s: string)
    requires c !in s
    ensures StripBoth([c] + s + [c], c) == s
  {
    var t := [c] + s + [c];
    assert t[1..] == s + [c];
    if s == "" {
      assert StripStart(t[1..], c) == StripStart("", c);
    } else {
      assert s[0] in s && s[|s| - 1] in s;
      assert StripStart(t[1..], c) == s + [c];
      assert (s + [c])[..|s|] == s;
      assert StripEnd(s, c) == s;
    }
  }

  function LowerChar(c: char): char {
    if 'A' <= c <= 'Z' then (c as int + 32) as char else c
  }

  /** Upper-case ASCII letters become their lower-case counterparts; nothing else changes. */
  lemma LowerExactly(c: char, i: nat)
    ensures i < 26 ==> LowerChar("ABCDEFGHIJKLMNOPQRSTUVWXYZ"[i]) == "abcdefghijklmnopqrstuvwxyz"[i]
    ensures !('A' <= c <= 'Z') ==> LowerChar(c) == c
  {
  }

  /** `to_ascii_lowercase`. */
  function Lower(s: string): (t: string)
    ensures |t| == |s|
    ensures forall i :: 0 <= i < |s| ==> t[i] == LowerChar(s[i])
  {
    if s == "" then "" else [LowerChar(s[0])] + Lower(s[1..])
  }

  /** The position of the first `c`, or the length when there is none. */
  function IndexOf(s: string, c: char): (k: nat)
    ensures k <= |s|
    ensures k < |s| ==> s[k] == c
    ensures forall i :: 0 <= i < k ==> s[i] != c
  {
    if s == "" || s[0] == c then 0 else 1 + IndexOf(s[1..], c)
  }

  lemma IndexOfIs(s: string, c: char, k: nat)
    requires k < |s| && s[k] == c && c !in s[..k]
    ensures IndexOf(s, c) == k
  {
    forall i | 0 <= i < k
      ensures s[i] != c
    {
      assert s[..k][i] != c;
    }
  }

  /** `split_once`. */
  function SplitOnce(s: string, c: char): Option<(string, string)> {
    var k := IndexOf(s, c);
    if k < |s| then Some((s[..k], s[k + 1..])) else None
  }

  lemma SplitOnceAt(front: string, c: char, back: string)
    requires c !in front
    ensures SplitOnce(front + [c] + back, c) == Some((front, back))
  {
    var s := front + [c] + back;
    assert s[..|front|] == front;
    IndexOfIs(s, c, |front|);
    assert s[|front| + 1..] == back;
  }

  /** The position of the last `c`. */
  function LastIndexOf(s: string, c: char): (k: Option<nat>)
    ensures k.Some? ==> k.value < |s| && s[k.value] == c && forall i :: k.value < i < |s| ==> s[i] != c
    ensures k.None? ==> c !in s
  {
    if s == "" then None
    else if s[|s| - 1] == c then Some(|s| - 1)
    else LastIndexOf(s[..|s| - 1], c)
  }

  /** `rsplit_once`. */
  function RSplitOnce(s: string, c: char): Option<(string, string)> {
    var k := LastIndexOf(s, c);
    if k.Some? then Some((s[..k.value], s[k.value + 1..])) else None
  }

  lemma RSplitOnceAt(front: string, c: char, back: string)
    requires c !in back
    ensures RSplitOnce(front + [c] + back, c) == Some((front, back))
  {
    var s := front + [c] + back;
    assert s[|front|] == c;
    assert forall i :: |front| < i < |s| ==> s[i] == back[i - |front| - 1];
    var k := LastIndexOf(s, c).value;
    assert k == |front| && s[..k] == front && s[k + 1..] == back;
  }
}
