/**
 * Subscription globs (crates/specton-rebuild/src/subscription.rs).
 *
 * `Glob` is the declarative meaning of a pattern: `*` stands for any substring,
 * every other character for itself. The greedy matcher is proved to decide it.
 * Text is a sequence of characters, so byte offsets become character offsets.
 */
module Glob {
  import opened Common

  ghost predicate Glob(p: string, v: string) {
    if p == "" then v == ""
    else if p[0] == '*' then exists k :: 0 <= k <= |v| && Glob(p[1..], v[k..])
    else v != "" && v[0] == p[0] && Glob(p[1..], v[1..])
  }

  predicate StartsAt(part: string, v: string, k: nat) {
    k + |part| <= |v| && v[k..k + |part|] == part
  }

  /** The parts between stars; `n` stars give `n + 1` parts. */
  function SplitStars(p: string): (parts: seq<string>)
    ensures |parts| >= 1
    ensures |parts| == 1 <==> '*' !in p
  {
    if p == "" then [""]
    else if p[0] == '*' then [""] + SplitStars(p[1..])
    else
      var rest := SplitStars(p[1..]);
      [[p[0]] + rest[0]] + rest[1..]
  }

  /** The parts occur in `v` one after another, the last one as a suffix. */
  ghost predicate Tail(parts: seq<string>, v: string)
    requires parts != []
    decreases |parts|
  {
    exists k :: 0 <= k <= |v| && StartsAt(parts[0], v, k) && TailAfter(parts, v, k)
  }

  ghost predicate TailAfter(parts: seq<string>, v: string, k: nat)
    requires parts != [] && StartsAt(parts[0], v, k)
    decreases |parts|, 0
  {
    if |parts| == 1 then k + |parts[0]| == |v| else Tail(parts[1..], v[k + |parts[0]|..])
  }

  // ---- The declarative meaning, part by part ----

  /** A leading literal run matches exactly as a prefix. */
  lemma {:induction false} GlobByParts(p: string, v: string)
    ensures var parts := SplitStars(p);
            Glob(p, v) <==> (if |parts| == 1 then v == parts[0]
                             else StartsAt(parts[0], v, 0) && Tail(parts[1..], v[|parts[0]|..]))
    decreases |p|
  {
    var parts := SplitStars(p);
    if p == "" {
    } else if p[0] == '*' {
      var rest := SplitStars(p[1..]);
      assert parts[1..] == rest && v[0..] == v && StartsAt("", v, 0);
      forall k | 0 <= k <= |v|
        ensures Glob(p[1..], v[k..]) <==> StartsAt(rest[0], v, k) && TailAfter(rest, v, k)
      {
        GlobByParts(p[1..], v[k..]);
        PartsFromOffset(rest, v, k);
      }
    } else {
      var rest := SplitStars(p[1..]);
      assert parts[0] == [p[0]] + rest[0] && parts[1..] == rest[1..];
      if v != "" && v[0] == p[0] {
        GlobByParts(p[1..], v[1..]);
        FirstChar(p[0], rest[0], v);
      }
    }
  }

  lemma FirstChar(c: char, part: string, v: string)
    requires v != "" && v[0] == c
    ensures StartsAt([c] + part, v, 0) <==> StartsAt(part, v[1..], 0)
    ensures v == [c] + part <==> v[1..] == part
    ensures StartsAt(part, v[1..], 0) ==> v[1..][|part|..] == v[|[c] + part|..]
  {
    assert v == [c] + v[1..];
    if 1 + |part| <= |v| {
      assert v[0..1 + |part|] == [c] + v[1..][0..|part|];
    }
  }

  lemma PartsFromOffset(parts: seq<string>, v: string, k: nat)
    requires parts != [] && k <= |v|
    ensures StartsAt(parts[0], v, k) <==> StartsAt(parts[0], v[k..], 0)
    ensures StartsAt(parts[0], v, k) ==>
              (TailAfter(parts, v, k) <==>
                  if |parts| == 1 then v[k..] == parts[0] else Tail(parts[1..], v[k..][|parts[0]|..]))
  {
    if k + |parts[0]| <= |v| {
      assert v[k..][0..|parts[0]|] == v[k..k + |parts[0]|];
      assert v[k..][|parts[0]|..] == v[k + |parts[0]|..];
    }
  }

  // ---- Why the leftmost occurrence is enough ----

  /** More text in front never hurts. */
  lemma {:induction false} TailMoreInFront(parts: seq<string>, v: string, j: nat)
    requires parts != [] && j <= |v| && Tail(parts, v[j..])
    ensures Tail(parts, v)
  {
    var w := v[j..];
    var k :| 0 <= k <= |w| && StartsAt(parts[0], w, k) && TailAfter(parts, w, k);
    var i := j + k;
    assert v[i..i + |parts[0]|] == w[k..k + |parts[0]|];
    assert v[i + |parts[0]|..] == w[k + |parts[0]|..];
    assert StartsAt(parts[0], v, i) && TailAfter(parts, v, i);
  }

  /** Committing to the leftmost occurrence of the first part loses no match. */
  lemma LeftmostSuffices(parts: seq<string>, v: string, first: nat)
    requires |parts| >= 2 && StartsAt(parts[0], v, first)
    requires forall k :: 0 <= k < first ==> !StartsAt(parts[0], v, k)
    ensures Tail(parts, v) <==> Tail(parts[1..], v[first + |parts[0]|..])
  {
    if Tail(parts, v) {
      var k :| 0 <= k <= |v| && StartsAt(parts[0], v, k) && TailAfter(parts, v, k);
      var n := |parts[0]|;
      assert v[first + n..][k - first..] == v[k + n..];
      TailMoreInFront(parts[1..], v[first + n..], k - first);
    } else {
      assert StartsAt(parts[0], v, first) && !TailAfter(parts, v, first);
    }
  }

  /** An empty part in the middle can be skipped. */
  lemma EmptyPartSkips(parts: seq<string>, v: string)
    requires |parts| >= 2 && parts[0] == ""
    ensures Tail(parts, v) <==> Tail(parts[1..], v)
  {
    assert StartsAt("", v, 0) && v[0 + |parts[0]|..] == v;
    LeftmostSuffices(parts, v, 0);
  }

  predicate EndsWith(v: string, part: string) {
    |part| <= |v| && v[|v| - |part|..] == part
  }

  lemma SuffixIsTail(part: string, v: string)
    requires EndsWith(v, part)
    ensures Tail([part], v)
  {
    var k := |v| - |part|;
    assert v[k..k + |part|] == v[k..];
    assert StartsAt([part][0], v, k) && TailAfter([part], v, k);
  }

  lemma TailIsSuffix(part: string, v: string)
    requires Tail([part], v)
    ensures EndsWith(v, part)
  {
    var k :| 0 <= k <= |v| && StartsAt([part][0], v, k) && TailAfter([part], v, k);
    assert v[k..k + |part|] == v[k..];
  }

  /** The last part has to be a suffix. */
  lemma LastPartIsSuffix(part: string, v: string)
    ensures Tail([part], v) <==> EndsWith(v, part)
  {
    if EndsWith(v, part) {
      SuffixIsTail(part, v);
    } else if Tail([part], v) {
      TailIsSuffix(part, v);
    }
  }

  // ---- The matcher ----

  method Find(part: string, v: string) returns (at: Option<nat>)
    ensures at.Some? ==> StartsAt(part, v, at.value) && forall k :: 0 <= k < at.value ==> !StartsAt(part, v, k)
    ensures at.None? ==> forall k :: 0 <= k <= |v| ==> !StartsAt(part, v, k)
  {
    var i := 0;
    while i + |part| <= |v|
      invariant forall k :: 0 <= k < i ==> !StartsAt(part, v, k)
    {
      if v[i..i + |part|] == part {
        return Some(i);
      }
      i := i + 1;
    }
    return None;
  }

  method GlobMatchInner(pattern: string, value: string) returns (matched: bool)
    ensures matched <==> Glob(pattern, value)
  {
    GlobByParts(pattern, value);
    if pattern == "*" {
      assert SplitStars("*") == ["", ""] by { assert SplitStars("") == [""]; }
      LastPartIsSuffix("", value);
      assert value[|value|..] == "" && value[|""|..] == value && SplitStars("*")[1..] == [""];
      return true;
    }
    if '*' !in pattern {
      NoStarSplit(pattern);
      return pattern == value;
    }
    var parts := SplitStars(pattern);
    if !(|parts[0]| <= |value| && value[0..|parts[0]|] == parts[0]) {
      return false;
    }
    var pos := |parts[0]|;
    var i := 1;
    while true
      invariant 1 <= i < |parts| && 0 <= pos <= |value|
      invariant Glob(pattern, value) <==> Tail(parts[i..], value[pos..])
      decreases |parts| - i
    {
      var part, rest := parts[i], value[pos..];
      assert parts[i..][0] == part;
      if i == |parts| - 1 {
        // The last part always decides: an empty one is a trailing star.
        assert parts[i..] == [part];
        LastPartIsSuffix(part, rest);
        if part == "" {
          assert rest[|rest|..] == "";
          return true;
        }
        return EndsWith(rest, part);
      }
      assert parts[i..][1..] == parts[i + 1..];
      if part == "" {
        EmptyPartSkips(parts[i..], rest);
      } else {
        var at := Find(part, rest);
        if at.None? {
          return false;
        }
        LeftmostSuffices(parts[i..], rest, at.value);
        assert rest[at.value + |part|..] == value[pos + at.value + |part|..];
        pos := pos + at.value + |part|;
      }
      i := i + 1;
    }
  }

  lemma {:induction false} NoStarSplit(p: string)
    requires '*' !in p
    ensures SplitStars(p) == [p]
  {
    if p != "" {
      NoStarSplit(p[1..]);
      assert [p[0]] + p[1..] == p;
    }
  }

  // ---- A final slash and star ----

  /** Concatenated patterns match concatenated texts. */
  lemma {:induction false} GlobConcat(p: string, q: string, v: string)
    ensures Glob(p + q, v) <==> exists k :: 0 <= k <= |v| && Glob(p, v[..k]) && Glob(q, v[k..])
    decreases |p|
  {
    if p == "" {
      assert p + q == q && v[0..] == v && v[..0] == "";
      if k :| 0 <= k <= |v| && Glob(p, v[..k]) && Glob(q, v[k..]) {
        assert k == 0;
      }
    } else {
      assert (p + q)[1..] == p[1..] + q && (p + q)[0] == p[0];
      if p[0] == '*' {
        StarConcat(p, q, v);
      } else {
        CharConcat(p, q, v);
      }
    }
  }

  lemma {:induction false} CharConcat(p: string, q: string, v: string)
    requires p != "" && p[0] != '*' && (p + q)[1..] == p[1..] + q
    ensures Glob(p + q, v) <==> exists k :: 0 <= k <= |v| && Glob(p, v[..k]) && Glob(q, v[k..])
    decreases |p|, 0
  {
    if Glob(p + q, v) {
      GlobConcat(p[1..], q, v[1..]);
      var k :| 0 <= k <= |v[1..]| && Glob(p[1..], v[1..][..k]) && Glob(q, v[1..][k..]);
      assert v[..k + 1][1..] == v[1..][..k] && v[k + 1..] == v[1..][k..];
      assert Glob(p, v[..k + 1]);
    }
    if k :| 0 <= k <= |v| && Glob(p, v[..k]) && Glob(q, v[k..]) {
      assert v[..k][1..] == v[1..][..k - 1] && v[1..][k - 1..] == v[k..];
      GlobConcat(p[1..], q, v[1..]);
    }
  }

  lemma {:induction false} StarConcat(p: string, q: string, v: string)
    requires p != "" && p[0] == '*' && (p + q)[1..] == p[1..] + q
    ensures Glob(p + q, v) <==> exists k :: 0 <= k <= |v| && Glob(p, v[..k]) && Glob(q, v[k..])
    decreases |p|, 0
  {
    if Glob(p + q, v) {
      var j :| 0 <= j <= |v| && Glob(p[1..] + q, v[j..]);
      GlobConcat(p[1..], q, v[j..]);
      var k :| 0 <= k <= |v[j..]| && Glob(p[1..], v[j..][..k]) && Glob(q, v[j..][k..]);
      assert v[..j + k][j..] == v[j..][..k] && v[j + k..] == v[j..][k..];
      assert Glob(p, v[..j + k]);
    }
    if k :| 0 <= k <= |v| && Glob(p, v[..k]) && Glob(q, v[k..]) {
      var j :| 0 <= j <= |v[..k]| && Glob(p[1..], v[..k][j..]);
      assert v[..k][j..] == v[j..][..k - j] && v[j..][k - j..] == v[k..];
      GlobConcat(p[1..], q, v[j..]);
    }
  }

  lemma StarMatchesAll(v: string)
    ensures Glob("*", v)
  {
    assert v[|v|..] == "" && Glob("", v[|v|..]);
  }

  /** A literal character before a final star only narrows the pattern. */
  lemma NarrowerThanStar(prefix: string, c: char, v: string)
    requires Glob(prefix + [c, '*'], v)
    ensures Glob(prefix + "*", v)
  {
    GlobConcat(prefix, [c, '*'], v);
    var k :| 0 <= k <= |v| && Glob(prefix, v[..k]) && Glob([c, '*'], v[k..]);
    StarMatchesAll(v[k..]);
    GlobConcat(prefix, "*", v);
  }

  /** What a subscription pattern accepts: a final slash before a last star is dropped. */
  ghost predicate Accepts(pattern: string, value: string) {
    if |pattern| >= 2 && pattern[|pattern| - 2..] == "/*" then Glob(pattern[..|pattern| - 2] + "*", value)
    else Glob(pattern, value)
  }

  method GlobMatch(pattern: string, value: string) returns (matched: bool)
    ensures matched <==> Accepts(pattern, value)
  {
    var direct := GlobMatchInner(pattern, value);
    if |pattern| >= 2 && pattern[|pattern| - 2..] == "/*" {
      var prefix := pattern[..|pattern| - 2];
      assert pattern == prefix + ['/', '*'];
      if direct {
        NarrowerThanStar(prefix, '/', value);
        return true;
      }
      var tagged := GlobMatchInner(prefix + ":*", value);
      if tagged {
        assert prefix + ":*" == prefix + [':', '*'];
        NarrowerThanStar(prefix, ':', value);
        return true;
      }
      matched := GlobMatchInner(prefix + "*", value);
    } else {
      return direct;
    }
  }

  // ---- Subscriptions ----

  datatype Subscription = Subscription(enabled: bool, bases: seq<string>, descendants: seq<string>)

  ghost predicate Infix(part: string, v: string) {
    exists k :: 0 <= k <= |v| && StartsAt(part, v, k)
  }

  /** A base that occurs literally inside the reference also counts. */
  ghost predicate WatchesBase(bases: seq<string>, upstream: string) {
    bases == [] || exists i :: 0 <= i < |bases| && (Accepts(bases[i], upstream) || Infix(bases[i], upstream))
  }

  ghost predicate WatchesDescendant(descendants: seq<string>, downstream: string) {
    descendants == [] || exists i :: 0 <= i < |descendants| && Accepts(descendants[i], downstream)
  }

  method Matches(sub: Subscription, upstream: string, downstream: string) returns (yes: bool)
    ensures yes <==> sub.enabled && WatchesBase(sub.bases, upstream) && WatchesDescendant(sub.descendants, downstream)
  {
    if !sub.enabled {
      return false;
    }
    var baseOk := |sub.bases| == 0;
    var i := 0;
    while i < |sub.bases| && !baseOk
      invariant 0 <= i <= |sub.bases|
      invariant baseOk ==> WatchesBase(sub.bases, upstream)
      invariant !baseOk ==> sub.bases != [] && forall j :: 0 <= j < i ==>
                !Accepts(sub.bases[j], upstream) && !Infix(sub.bases[j], upstream)
    {
      var g := GlobMatch(sub.bases[i], upstream);
      var at := Find(sub.bases[i], upstream);
      baseOk := g || at.Some?;
      i := i + 1;
    }
    if !baseOk {
      return false;
    }
    yes := |sub.descendants| == 0;
    i := 0;
    while i < |sub.descendants| && !yes
      invariant 0 <= i <= |sub.descendants|
      invariant yes ==> WatchesDescendant(sub.descendants, downstream)
      invariant !yes ==> sub.descendants != [] && forall j :: 0 <= j < i ==> !Accepts(sub.descendants[j], downstream)
    {
      yes := GlobMatch(sub.descendants[i], downstream);
      i := i + 1;
    }
  }
}
