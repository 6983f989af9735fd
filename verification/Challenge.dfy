/**
 * The `WWW-Authenticate` parser (crates/specton-mirror/src/upstream.rs), proved to
 * read back everything a printer of section 2.1 and section 4.1 of RFC 7235 writes.
 */
module Challenge {
  import opened Common
  import opened Text

  datatype Challenge = Challenge(scheme: string, realm: Option<string>, service: Option<string>, scope: Option<string>)

  // ---- Splitting on commas outside quotes ----

  function Onto(front: string, parts: seq<string>): (r: seq<string>)
    requires parts != []
    ensures |r| == |parts|
  {
    [front + parts[0]] + parts[1..]
  }

  function Parts(s: string, inQuotes: bool): (ps: seq<string>)
    ensures ps != []
  {
    if s == "" then [""]
    else if s[0] == ',' && !inQuotes then [""] + Parts(s[1..], false)
    else Onto([s[0]], Parts(s[1..], if s[0] == '"' then !inQuotes else inQuotes))
  }

  method SplitOutsideQuotes(params: string) returns (parts: seq<string>)
    ensures parts == Parts(params, false)
  {
    parts := [];
    var inQuotes, start := false, 0;
    assert params[0..0] == "" && params[0..] == params;
    OntoNothing(Parts(params, false));
    for i := 0 to |params|
      invariant 0 <= start <= i
      invariant Parts(params, false) == parts + Onto(params[start..i], Parts(params[i..], inQuotes))
    {
      var c := params[i];
      assert params[i..][0] == c && params[i..][1..] == params[i + 1..];
      assert params[start..i] + [c] == params[start..i + 1];
      if c == '"' {
        OntoOnto(params[start..i], [c], Parts(params[i + 1..], !inQuotes));
        inQuotes := !inQuotes;
      } else if c == ',' && !inQuotes {
        var rest := Parts(params[i + 1..], false);
        assert Onto(params[start..i], [""] + rest) == [params[start..i]] + rest by {
          assert params[start..i] + "" == params[start..i];
          assert ([""] + rest)[1..] == rest;
        }
        parts := parts + [params[start..i]];
        start := i + 1;
        assert params[start..i + 1] == "";
        OntoNothing(rest);
      } else {
        OntoOnto(params[start..i], [c], Parts(params[i + 1..], inQuotes));
      }
    }
    assert params[|params|..] == "" && params[start..|params|] == params[start..];
    assert Onto(params[start..], [""]) == [params[start..]] by {
      assert params[start..] + "" == params[start..];
    }
    parts := parts + [params[start..]];
  }

  lemma OntoNothing(parts: seq<string>)
    requires parts != []
    ensures Onto("", parts) == parts
  {
    assert "" + parts[0] == parts[0];
  }

  lemma OntoOnto(a: string, b: string, parts: seq<string>)
    requires parts != []
    ensures Onto(a, Onto(b, parts)) == Onto(a + b, parts)
  {
    assert a + (b + parts[0]) == a + b + parts[0];
  }

  // ---- Reading the parameters ----

  function SetField(ch: Challenge, name: string, value: string): Challenge {
    if name == "realm" then ch.(realm := Some(value))
    else if name == "service" then ch.(service := Some(value))
    else if name == "scope" then ch.(scope := Some(value))
    else ch
  }

  /** A part without `=` is skipped. */
  function ApplyPart(ch: Challenge, part: string): Challenge {
    var kv := SplitOnce(Trim(part), '=');
    if kv.None? then ch
    else SetField(ch, Lower(Trim(kv.value.0)), StripBoth(Trim(kv.value.1), '"'))
  }

  function ApplyParts(ch: Challenge, parts: seq<string>): Challenge
    decreases |parts|
  {
    if parts == [] then ch else ApplyParts(ApplyPart(ch, parts[0]), parts[1..])
  }

  /** The scheme and the rest of the header after its first space. */
  function SchemeAndParams(header: string): (string, string) {
    var sp := SplitOnce(Trim(header), ' ');
    if sp.Some? then sp.value else (Trim(header), "")
  }

  function Parsed(header: string): Option<Challenge> {
    var sp := SchemeAndParams(header);
    if sp.0 == "" then None
    else Some(ApplyParts(Challenge(Lower(sp.0), None, None, None), Parts(sp.1, false)))
  }

  method ParseChallenge(header: string) returns (r: Option<Challenge>)
    ensures r == Parsed(header)
  {
    var trimmed := Trim(header);
    var split := SplitOnce(trimmed, ' ');
    var scheme, params := trimmed, "";
    if split.Some? {
      scheme, params := split.value.0, split.value.1;
    }
    if scheme == "" {
      return None;
    }
    var challenge := Challenge(Lower(scheme), None, None, None);
    var parts := SplitOutsideQuotes(params);
    ghost var first := challenge;
    assert parts[0..] == parts;
    for i := 0 to |parts|
      invariant ApplyParts(first, parts) == ApplyParts(challenge, parts[i..])
    {
      assert parts[i..][0] == parts[i] && parts[i..][1..] == parts[i + 1..];
      var kv := SplitOnce(Trim(parts[i]), '=');
      if kv.None? {
        continue;
      }
      var value := StripBoth(Trim(kv.value.1), '"');
      var key := Lower(Trim(kv.value.0));
      if key == "realm" {
        challenge := challenge.(realm := Some(value));
      } else if key == "service" {
        challenge := challenge.(service := Some(value));
      } else if key == "scope" {
        challenge := challenge.(scope := Some(value));
      }
    }
    return Some(challenge);
  }

  // ---- Printing ----

  /** One parameter, the blanks written before it, and whether its value is quoted. */
  datatype Param = Param(pad: string, name: string, value: string, quoted: bool)

  /** Names are free of separators; a value holds no quote and, unquoted, no comma and no blank at its ends. */
  ghost predicate Printable(p: Param) {
    && Blank(p.pad)
    && Trimmed(p.name) && '"' !in p.name && ',' !in p.name && '=' !in p.name
    && '"' !in p.value && (p.quoted || (',' !in p.value && Trimmed(p.value)))
  }

  function Assignment(p: Param): string {
    p.name + ['='] + if p.quoted then ['"'] + p.value + ['"'] else p.value
  }

  function PrintParam(p: Param): string {
    p.pad + Assignment(p)
  }

  function PrintParams(ps: seq<Param>): string
    requires ps != []
  {
    if |ps| == 1 then PrintParam(ps[0]) else PrintParam(ps[0]) + [','] + PrintParams(ps[1..])
  }

  function Print(scheme: string, ps: seq<Param>): string {
    if ps == [] then scheme else scheme + [' '] + PrintParams(ps)
  }

  /** A scheme the first space delimits and trimming keeps. */
  ghost predicate PrintableScheme(scheme: string, ps: seq<Param>) {
    scheme != "" && ' ' !in scheme && !IsSpace(scheme[0]) && (ps == [] ==> !IsSpace(scheme[|scheme| - 1]))
  }

  /** The value of the last parameter with the name, compared without case. */
  function LastNamed(ps: seq<Param>, name: string): Option<string> {
    if ps == [] then None
    else if Lower(ps[|ps| - 1].name) == name then Some(ps[|ps| - 1].value)
    else LastNamed(ps[..|ps| - 1], name)
  }

  function Meaning(scheme: string, ps: seq<Param>): Challenge {
    Challenge(Lower(scheme), LastNamed(ps, "realm"), LastNamed(ps, "service"), LastNamed(ps, "scope"))
  }

  // ---- Reading back what was printed ----

  /** Text without quotes and, outside quotes, without commas stays in one part. */
  lemma {:induction false} PlainStays(s: string, rest: string, inQuotes: bool)
    requires '"' !in s && (inQuotes || ',' !in s)
    ensures Parts(s + rest, inQuotes) == Onto(s, Parts(rest, inQuotes))
  {
    if s == "" {
      assert s + rest == rest;
      OntoNothing(Parts(rest, inQuotes));
    } else {
      assert (s + rest)[1..] == s[1..] + rest && (s + rest)[0] == s[0];
      PlainStays(s[1..], rest, inQuotes);
      OntoOnto([s[0]], s[1..], Parts(rest, inQuotes));
      assert [s[0]] + s[1..] == s;
    }
  }

  lemma QuoteToggles(rest: string, inQuotes: bool)
    ensures Parts(['"'] + rest, inQuotes) == Onto(['"'], Parts(rest, !inQuotes))
  {
    assert (['"'] + rest)[1..] == rest;
  }

  /** A printed parameter stays in one part, commas in its value included. */
  lemma QuotedStays(value: string, rest: string)
    requires '"' !in value
    ensures Parts(['"'] + (value + (['"'] + rest)), false) == Onto(['"'] + (value + ['"']), Parts(rest, false))
  {
    var q, tail := ['"'], Parts(rest, false);
    QuoteToggles(value + (q + rest), false);
    PlainStays(value, q + rest, true);
    QuoteToggles(rest, true);
    OntoOnto(value, q, tail);
    OntoOnto(q, value + q, tail);
  }

  lemma Regroup(a: string, b: string, c: string, q: string, v: string, rest: string)
    ensures a + (b + c + (q + v + q)) == a + b + c + (q + (v + q))
    ensures a + (b + c + (q + v + q)) + rest == a + b + c + (q + (v + (q + rest)))
  {
  }

  lemma ParamStays(p: Param, rest: string)
    requires Printable(p)
    ensures Parts(PrintParam(p) + rest, false) == Onto(PrintParam(p), Parts(rest, false))
  {
    var front, q := p.pad + p.name + ['='], ['"'];
    forall i | 0 <= i < |p.pad|
      ensures p.pad[i] != ',' && p.pad[i] != '"'
    {
      assert IsSpace(p.pad[i]);
    }
    if p.quoted {
      PlainStays(front, q + (p.value + (q + rest)), false);
      QuotedStays(p.value, rest);
      OntoOnto(front, q + (p.value + q), Parts(rest, false));
      Regroup(p.pad, p.name, ['='], q, p.value, rest);
    } else {
      PlainStays(PrintParam(p), rest, false);
    }
  }

  lemma {:induction false} PartsArePrinted(ps: seq<Param>)
    requires ps != [] && forall i :: 0 <= i < |ps| ==> Printable(ps[i])
    ensures |Parts(PrintParams(ps), false)| == |ps|
    ensures forall i :: 0 <= i < |ps| ==> Parts(PrintParams(ps), false)[i] == PrintParam(ps[i])
  {
    var first := PrintParam(ps[0]);
    if |ps| == 1 {
      ParamStays(ps[0], "");
      assert first + "" == first;
    } else {
      PartsArePrinted(ps[1..]);
      var rest := [','] + PrintParams(ps[1..]);
      ParamStays(ps[0], rest);
      assert first + [','] + PrintParams(ps[1..]) == first + rest;
      assert rest[1..] == PrintParams(ps[1..]);
      assert first + "" == first;
    }
  }

  lemma AppliesPrinted(ch: Challenge, p: Param)
    requires Printable(p)
    ensures ApplyPart(ch, PrintParam(p)) == SetField(ch, Lower(p.name), p.value)
  {
    var written := if p.quoted then ['"'] + p.value + ['"'] else p.value;
    assert Assignment(p)[0] == (if p.name == "" then '=' else p.name[0]);
    assert Assignment(p)[|Assignment(p)| - 1] == (if written == "" then '=' else written[|written| - 1]);
    TrimDropsPadding(p.pad, Assignment(p));
    SplitOnceAt(p.name, '=', written);
    assert Trim(p.name) == p.name && Trim(written) == written;
    if p.quoted {
      Unquoted('"', p.value);
    } else {
      NothingToStrip('"', p.value);
    }
  }

  lemma NothingToStrip(c: char, s: string)
    requires c !in s
    ensures StripBoth(s, c) == s
  {
    assert s != "" ==> s[0] in s && s[|s| - 1] in s;
  }

  lemma {:induction false} AppliesAll(scheme: string, ps: seq<Param>, parts: seq<string>, k: nat)
    requires k <= |ps| == |parts|
    requires forall i :: 0 <= i < |ps| ==> Printable(ps[i]) && parts[i] == PrintParam(ps[i])
    ensures ApplyParts(Meaning(scheme, ps[..k]), parts[k..]) == Meaning(scheme, ps)
    decreases |ps| - k
  {
    if k == |ps| {
      assert ps[..k] == ps;
    } else {
      AppliesPrinted(Meaning(scheme, ps[..k]), ps[k]);
      assert ps[..k + 1][..k] == ps[..k];
      assert parts[k..][1..] == parts[k + 1..];
      AppliesAll(scheme, ps, parts, k + 1);
    }
  }

  lemma {:induction false} PrintedEndsWithoutBlank(ps: seq<Param>)
    requires ps != [] && forall i :: 0 <= i < |ps| ==> Printable(ps[i])
    ensures PrintParams(ps) != "" && !IsSpace(PrintParams(ps)[|PrintParams(ps)| - 1])
  {
    if |ps| > 1 {
      PrintedEndsWithoutBlank(ps[1..]);
    }
  }

  lemma SplitsAtSpace(scheme: string, rest: string)
    requires scheme != "" && ' ' !in scheme && !IsSpace(scheme[0]) && rest != "" && !IsSpace(rest[|rest| - 1])
    ensures SchemeAndParams(scheme + [' '] + rest) == (scheme, rest)
  {
    var text := scheme + [' '] + rest;
    assert text[0] == scheme[0] && text[|text| - 1] == rest[|rest| - 1];
    assert Trim(text) == text;
    SplitOnceAt(scheme, ' ', rest);
  }

  lemma NothingToSplit(scheme: string)
    requires scheme != "" && ' ' !in scheme && !IsSpace(scheme[0]) && !IsSpace(scheme[|scheme| - 1])
    ensures SchemeAndParams(scheme) == (scheme, "")
  {
    assert Trim(scheme) == scheme;
    assert IndexOf(scheme, ' ') == |scheme|;
  }

  /**
   * Parsing inverts printing for every scheme and every list of parameters, known or
   * unknown, quoted or not, in any order and any case; a repeated name takes its last value.
   */
  lemma ParseInvertsPrint(scheme: string, ps: seq<Param>)
    requires PrintableScheme(scheme, ps) && forall i :: 0 <= i < |ps| ==> Printable(ps[i])
    ensures Parsed(Print(scheme, ps)) == Some(Meaning(scheme, ps))
  {
    if ps == [] {
      NothingToSplit(scheme);
      ParsesBare(scheme);
    } else {
      PrintedEndsWithoutBlank(ps);
      SplitsAtSpace(scheme, PrintParams(ps));
      ParsesParams(scheme, ps, Print(scheme, ps));
    }
  }

  lemma ParsesBare(scheme: string)
    requires scheme != "" && SchemeAndParams(scheme) == (scheme, "")
    ensures Parsed(scheme) == Some(Meaning(scheme, []))
  {
    var start := Meaning(scheme, []);
    assert SplitOnce(Trim(""), '=') == None;
    assert Parts("", false) == [""];
    assert ApplyParts(start, [""]) == ApplyParts(ApplyPart(start, ""), [""][1..]);
  }

  lemma ParsesParams(scheme: string, ps: seq<Param>, text: string)
    requires scheme != "" && ps != [] && forall i :: 0 <= i < |ps| ==> Printable(ps[i])
    requires SchemeAndParams(text) == (scheme, PrintParams(ps))
    ensures Parsed(text) == Some(Meaning(scheme, ps))
  {
    PartsArePrinted(ps);
    var parts := Parts(PrintParams(ps), false);
    assert parts[0..] == parts && ps[..0] == [];
    AppliesAll(scheme, ps, parts, 0);
  }

  /** `ps` lists exactly the fields `c` has, each once. */
  ghost predicate Lists(c: Challenge, ps: seq<Param>) {
    && (forall i, j :: 0 <= i < j < |ps| ==> ps[i].name != ps[j].name)
    && (forall i :: 0 <= i < |ps| ==> FieldOf(c, ps[i].name) == Some(ps[i].value))
    && (forall name :: FieldOf(c, name).Some? ==> exists i :: 0 <= i < |ps| && ps[i].name == name)
  }

  function FieldOf(c: Challenge, name: string): Option<string> {
    if name == "realm" then c.realm
    else if name == "service" then c.service
    else if name == "scope" then c.scope
    else None
  }

  lemma {:induction false} LastNamedOfDistinct(ps: seq<Param>, i: nat)
    requires i < |ps| && forall j, k :: 0 <= j < k < |ps| ==> Lower(ps[j].name) != Lower(ps[k].name)
    ensures LastNamed(ps, Lower(ps[i].name)) == Some(ps[i].value)
  {
    if i < |ps| - 1 {
      LastNamedOfDistinct(ps[..|ps| - 1], i);
    }
  }

  lemma {:induction false} LastNamedAbsent(ps: seq<Param>, name: string)
    requires forall i :: 0 <= i < |ps| ==> Lower(ps[i].name) != name
    ensures LastNamed(ps, name) == None
  {
    if ps != [] {
      LastNamedAbsent(ps[..|ps| - 1], name);
    }
  }

  lemma LowerKeeps(s: string)
    requires forall i :: 0 <= i < |s| ==> 'a' <= s[i] <= 'z'
    ensures Lower(s) == s
  {
  }

  /** The three names are plain lower-case words. */
  lemma FieldNamesArePlain(name: string)
    requires name == "realm" || name == "service" || name == "scope"
    ensures name != "" && forall i :: 0 <= i < |name| ==> 'a' <= name[i] <= 'z'
  {
  }

  lemma FieldNamesAreLower(name: string)
    requires name == "realm" || name == "service" || name == "scope"
    ensures Lower(name) == name
    ensures Trimmed(name) && '"' !in name && ',' !in name && '=' !in name
  {
    FieldNamesArePlain(name);
    LowerKeeps(name);
  }

  lemma FieldReadsBack(c: Challenge, ps: seq<Param>, name: string)
    requires Lists(c, ps) && (name == "realm" || name == "service" || name == "scope")
    ensures LastNamed(ps, name) == FieldOf(c, name)
  {
    forall i | 0 <= i < |ps|
      ensures Lower(ps[i].name) == ps[i].name
    {
      FieldNamesAreLower(ps[i].name);
    }
    if FieldOf(c, name).Some? {
      var i :| 0 <= i < |ps| && ps[i].name == name;
      LastNamedOfDistinct(ps, i);
    } else {
      LastNamedAbsent(ps, name);
    }
  }

  /** Every challenge reads back from its fields printed in any order. */
  lemma ChallengeRoundTrip(c: Challenge, ps: seq<Param>)
    requires Lower(c.scheme) == c.scheme && PrintableScheme(c.scheme, ps)
    requires Lists(c, ps)
    requires forall i :: 0 <= i < |ps| ==> Blank(ps[i].pad) && '"' !in ps[i].value
    requires forall i :: 0 <= i < |ps| && !ps[i].quoted ==> ',' !in ps[i].value && Trimmed(ps[i].value)
    ensures Parsed(Print(c.scheme, ps)) == Some(c)
  {
    forall i | 0 <= i < |ps|
      ensures Printable(ps[i])
    {
      assert FieldOf(c, ps[i].name).Some?;
      FieldNamesAreLower(ps[i].name);
    }
    ParseInvertsPrint(c.scheme, ps);
    FieldReadsBack(c, ps, "realm");
    FieldReadsBack(c, ps, "service");
    FieldReadsBack(c, ps, "scope");
  }
}
