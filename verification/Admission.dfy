/**
 * The pull-time admission gate and its decision cache
 * (crates/specton-registry/src/admission.rs).
 *
 * The scanner's rule evaluation is the parameter `judge`. Every clock reading is an
 * input of its own, so nothing below depends on the clock moving forwards.
 */
module Admission {
  import opened Common
  import G = Glob

  /** A policy id in its hyphenated text form, which has no colon. */
  type Uuid = s: string | |s| == 36 && ':' !in s witness seq(36, _ => '0')

  datatype Verdict = Allow | Warn(reason: string) | Block(reason: string, code: string)

  datatype OnUnknown = BlockUnknown | ScanUnknown | AllowUnknown

  type Rules = map<string, string>

  datatype Vulnerability = Vulnerability(id: string, severity: string)

  datatype Judgement = Pass | Fail(reason: Option<string>)

  type Judge = (Rules, seq<Vulnerability>) -> Judgement

  datatype Policy = Policy(id: Uuid, name: string, tenant: string, enabled: bool, projects: seq<string>,
                           repositories: seq<string>, signatureRequired: bool, blockRules: Rules,
                           warnRules: Rules, onUnknown: OnUnknown)

  datatype Input = Input(tenant: string, project: string, repository: string, digest: string, bypass: bool,
                         signatureOk: Option<bool>, scan: Option<seq<Vulnerability>>)

  // ---- One policy ----

  predicate StartsWith(s: string, prefix: string) {
    |prefix| <= |s| && s[..|prefix|] == prefix
  }

  /** Only a final star is special here. */
  predicate GlobMatch(pattern: string, value: string) {
    if pattern != "" && pattern[|pattern| - 1] == '*' then StartsWith(value, pattern[..|pattern| - 1])
    else pattern == value
  }

  predicate MatchesScope(p: Policy, project: string, repository: string) {
    && (p.projects == [] || exists i :: 0 <= i < |p.projects| && (p.projects[i] == "*" || p.projects[i] == project))
    && (p.repositories == [] ||
        exists i :: 0 <= i < |p.repositories|
            && (p.repositories[i] == "*" || p.repositories[i] == repository
                || GlobMatch(p.repositories[i], repository)))
  }

  predicate Applies(p: Policy, input: Input) {
    p.enabled && p.tenant == input.tenant && MatchesScope(p, input.project, input.repository)
  }

  const UNVERIFIED := "MANIFEST_UNVERIFIED"

  function Reason(p: Policy, text: string): string {
    "policy " + p.name + ": " + text
  }

  function Given(reason: Option<string>, otherwise: string): string {
    if reason.Some? then reason.value else otherwise
  }

  function EvaluateOne(judge: Judge, p: Policy, input: Input): Verdict {
    if p.signatureRequired && input.signatureOk == Some(false) then
      Block(Reason(p, "signature required but missing/invalid"), UNVERIFIED)
    else if p.signatureRequired && input.signatureOk == None then
      Block(Reason(p, "signature required"), UNVERIFIED)
    else if input.scan.None? then
      match p.onUnknown
      case AllowUnknown => Allow
      case ScanUnknown => Warn(Reason(p, "no scan result; scan-on-pull deferred"))
      case BlockUnknown => Block(Reason(p, "no scan result for digest"), UNVERIFIED)
    else
      var blocked := judge(p.blockRules, input.scan.value);
      if blocked.Fail? then Block(Reason(p, Given(blocked.reason, "severity threshold exceeded")), UNVERIFIED)
      else
        var warned := judge(p.warnRules, input.scan.value);
        if warned.Fail? then Warn(Reason(p, Given(warned.reason, "warn threshold exceeded"))) else Allow
  }

  /** Why a policy blocks: a signature problem is named before anything the scan shows. */
  function BlockText(judge: Judge, p: Policy, input: Input): string {
    if p.signatureRequired && input.signatureOk == Some(false) then "signature required but missing/invalid"
    else if p.signatureRequired && input.signatureOk == None then "signature required"
    else if input.scan.None? then "no scan result for digest"
    else
      var j := judge(p.blockRules, input.scan.value);
      if j.Fail? then Given(j.reason, "severity threshold exceeded") else ""
  }

  function WarnText(judge: Judge, p: Policy, input: Input): string {
    if input.scan.None? then "no scan result; scan-on-pull deferred"
    else
      var j := judge(p.warnRules, input.scan.value);
      if j.Fail? then Given(j.reason, "warn threshold exceeded") else ""
  }

  /**
   * Which of the three kinds a policy gives: a missing signature, an unknown digest
   * under a blocking policy and a failed block rule block; only then do warnings count.
   */
  lemma KindOfOne(judge: Judge, p: Policy, input: Input)
    ensures EvaluateOne(judge, p, input).Block? <==>
            || (p.signatureRequired && input.signatureOk != Some(true))
            || (input.scan.None? && p.onUnknown.BlockUnknown?)
            || (input.scan.Some? && judge(p.blockRules, input.scan.value).Fail?)
    ensures EvaluateOne(judge, p, input).Allow? <==>
            && (p.signatureRequired ==> input.signatureOk == Some(true))
            && (input.scan.None? ==> p.onUnknown.AllowUnknown?)
            && (input.scan.Some? ==>
                judge(p.blockRules, input.scan.value).Pass? && judge(p.warnRules, input.scan.value).Pass?)
    ensures EvaluateOne(judge, p, input).Block? ==>
              EvaluateOne(judge, p, input) ==
              Block("policy " + p.name + ": " + BlockText(judge, p, input), "MANIFEST_UNVERIFIED")
    ensures EvaluateOne(judge, p, input).Warn? ==>
              EvaluateOne(judge, p, input) == Warn("policy " + p.name + ": " + WarnText(judge, p, input))
  {
    if input.signatureOk.Some? {
      var ok := input.signatureOk.value;
      assert input.signatureOk == Some(ok) && (ok == true || ok == false);
    }
  }

  /** On patterns whose only star is the last character, scope matching is the usual glob. */
  lemma ScopeGlobIsGlob(pattern: string, value: string)
    requires forall i :: 0 <= i < |pattern| - 1 ==> pattern[i] != '*'
    ensures GlobMatch(pattern, value) <==> G.Glob(pattern, value)
  {
    G.GlobByParts(pattern, value);
    if pattern != "" && pattern[|pattern| - 1] == '*' {
      var prefix := pattern[..|pattern| - 1];
      assert pattern == prefix + "*";
      SplitOfPrefix(prefix);
      G.LastPartIsSuffix("", if |prefix| <= |value| then value[|prefix|..] else value);
      assert |prefix| <= |value| ==> value[0..0 + |prefix|] == value[..|prefix|];
    } else {
      G.NoStarSplit(pattern);
    }
  }

  lemma {:induction false} SplitOfPrefix(prefix: string)
    requires '*' !in prefix
    ensures G.SplitStars(prefix + "*") == [prefix, ""]
  {
    var p := prefix + "*";
    if prefix == "" {
      assert p[1..] == "" && G.SplitStars("") == [""];
    } else {
      assert p[1..] == prefix[1..] + "*";
      SplitOfPrefix(prefix[1..]);
      assert [prefix[0]] + prefix[1..] == prefix;
    }
  }

  // ---- Merging ----

  function Merge(a: Verdict, b: Verdict): Verdict {
    match (a, b)
    case (Block(_, _), _) => a
    case (_, Block(_, _)) => b
    case (Warn(_), Allow) => a
    case (Allow, Warn(_)) => b
    case _ => a
  }

  function Kind(v: Verdict): nat {
    match v
    case Allow => 0
    case Warn(_) => 1
    case Block(_, _) => 2
  }

  function Fold(worst: Verdict, vs: seq<Verdict>): Verdict
    decreases |vs|
  {
    if vs == [] then worst else Fold(Merge(worst, vs[0]), vs[1..])
  }

  /** `v` is the first verdict of the list that no other one outranks. */
  ghost predicate FirstWorst(vs: seq<Verdict>, v: Verdict) {
    exists i :: 0 <= i < |vs| && vs[i] == v
      && (forall j :: 0 <= j < |vs| ==> Kind(vs[j]) <= Kind(v))
      && (forall j :: 0 <= j < i ==> Kind(vs[j]) < Kind(v))
  }

  lemma MergeKeepsFirstWorst(a: Verdict, b: Verdict)
    ensures Merge(a, b) == if Kind(b) > Kind(a) then b else a
  {
  }

  /** Merging the first two verdicts of a list keeps the first worst one. */
  lemma MergedHeadsKeepFirstWorst(a: Verdict, b: Verdict, rest: seq<Verdict>, v: Verdict)
    requires FirstWorst([Merge(a, b)] + rest, v)
    ensures FirstWorst([a, b] + rest, v)
  {
    MergeKeepsFirstWorst(a, b);
    var some, all := [Merge(a, b)] + rest, [a, b] + rest;
    var i :| 0 <= i < |some| && some[i] == v && (forall j :: 0 <= j < |some| ==> Kind(some[j]) <= Kind(v))
             && (forall j :: 0 <= j < i ==> Kind(some[j]) < Kind(v));
    assert Kind(some[0]) <= Kind(v);
    assert forall j :: 2 <= j < |all| ==> all[j] == some[j - 1];
    var at := if i > 0 then i + 1 else if Kind(b) > Kind(a) then 1 else 0;
    assert all[at] == v;
  }

  lemma {:induction false} FoldIsFirstWorst(worst: Verdict, vs: seq<Verdict>)
    ensures FirstWorst([worst] + vs, Fold(worst, vs))
    decreases |vs|
  {
    var all := [worst] + vs;
    if vs == [] {
      assert all[0] == worst;
    } else {
      var next := Merge(worst, vs[0]);
      FoldIsFirstWorst(next, vs[1..]);
      MergedHeadsKeepFirstWorst(worst, vs[0], vs[1..], Fold(next, vs[1..]));
      assert all == [worst, vs[0]] + vs[1..];
    }
  }

  function MaxKind(vs: seq<Verdict>): nat {
    if vs == [] then 0 else var m := MaxKind(vs[1..]); if Kind(vs[0]) > m then Kind(vs[0]) else m
  }

  lemma {:induction false} MaxKindBounds(vs: seq<Verdict>)
    ensures forall j :: 0 <= j < |vs| ==> Kind(vs[j]) <= MaxKind(vs)
    ensures MaxKind(vs) == 0 || exists j :: 0 <= j < |vs| && Kind(vs[j]) == MaxKind(vs)
  {
    if vs != [] {
      MaxKindBounds(vs[1..]);
      assert forall j :: 1 <= j < |vs| ==> vs[j] == vs[1..][j - 1];
      if MaxKind(vs) != 0 && Kind(vs[0]) != MaxKind(vs) {
        var j :| 0 <= j < |vs[1..]| && Kind(vs[1..][j]) == MaxKind(vs[1..]);
        assert Kind(vs[j + 1]) == MaxKind(vs);
      }
    }
  }

  /** The kind of the outcome is the worst kind, whatever the order of the policies. */
  lemma KindIsOrderFree(vs: seq<Verdict>, ws: seq<Verdict>)
    requires multiset(vs) == multiset(ws)
    ensures Kind(Fold(Allow, vs)) == MaxKind(vs) == Kind(Fold(Allow, ws))
  {
    KindOfFold(vs);
    KindOfFold(ws);
    MaxKindBounds(vs);
    MaxKindBounds(ws);
    forall v
      ensures v in vs <==> v in ws
    {
      assert v in vs <==> v in multiset(vs);
      assert v in ws <==> v in multiset(ws);
    }
    if MaxKind(vs) != 0 {
      var j :| 0 <= j < |vs| && Kind(vs[j]) == MaxKind(vs);
      assert vs[j] in ws;
    }
    if MaxKind(ws) != 0 {
      var j :| 0 <= j < |ws| && Kind(ws[j]) == MaxKind(ws);
      assert ws[j] in vs;
    }
  }

  lemma KindOfFold(vs: seq<Verdict>)
    ensures Kind(Fold(Allow, vs)) == MaxKind(vs)
  {
    FoldIsFirstWorst(Allow, vs);
    MaxKindBounds(vs);
    var all, v := [Allow] + vs, Fold(Allow, vs);
    var i :| 0 <= i < |all| && all[i] == v && (forall j :: 0 <= j < |all| ==> Kind(all[j]) <= Kind(v));
    assert forall j :: 0 <= j < |vs| ==> all[j + 1] == vs[j];
    if MaxKind(vs) != 0 {
      var j :| 0 <= j < |vs| && Kind(vs[j]) == MaxKind(vs);
      assert Kind(all[j + 1]) <= Kind(v);
    }
  }

  // ---- The cache ----

  datatype Entry = Entry(verdict: Verdict, expires: int)

  type Cache = map<string, Entry>

  function CacheKey(digest: string, id: Uuid): string {
    "admit:" + digest + ":" + id
  }

  /** Digests may contain colons; the id has none, so the last colon separates them. */
  lemma CacheKeyInjective(d1: string, id1: Uuid, d2: string, id2: Uuid)
    requires CacheKey(d1, id1) == CacheKey(d2, id2)
    ensures d1 == d2 && id1 == id2
  {
    var k1, k2 := CacheKey(d1, id1), CacheKey(d2, id2);
    assert |d1| == |d2|;
    assert k1[7 + |d1|..] == id1 && k2[7 + |d2|..] == id2;
    assert k1[6..6 + |d1|] == d1 && k2[6..6 + |d2|] == d2;
  }

  function Lookup(cache: Cache, key: string, now: int): Option<Verdict> {
    if key in cache && now < cache[key].expires then Some(cache[key].verdict) else None
  }

  const PRUNE_ABOVE: nat := 10_000

  /** Inserts, then drops expired entries once the cache has grown past its limit. */
  function Stored(cache: Cache, key: string, verdict: Verdict, ttl: int, now: int, pruneNow: int): Cache {
    var grown := cache[key := Entry(verdict, now + ttl)];
    if |grown| > PRUNE_ABOVE then map k | k in grown && grown[k].expires > pruneNow :: grown[k] else grown
  }

  /**
   * What storing leaves behind: the new entry and all old ones, except that a cache grown
   * past its limit loses exactly the entries expired by then, the new one included.
   */
  lemma StoringDropsOnlyExpired(cache: Cache, key: string, verdict: Verdict, ttl: int, now: int, pruneNow: int,
                                k: string)
    ensures var after := Stored(cache, key, verdict, ttl, now, pruneNow);
            var entry := if k == key then Some(Entry(verdict, now + ttl))
                         else if k in cache then Some(cache[k]) else None;
            && (k in after <==> entry.Some? && (|cache.Keys + {key}| > PRUNE_ABOVE ==> entry.value.expires > pruneNow))
            && (k in after ==> after[k] == entry.value)
  {
    var grown := cache[key := Entry(verdict, now + ttl)];
    assert grown.Keys == cache.Keys + {key};
  }

  class DecisionCache {
    var entries: Cache
    const ttl: int

    constructor (ttlSecs: nat)
      ensures entries == map[] && ttl == if ttlSecs < 1 then 1 else ttlSecs
    {
      entries := map[];
      ttl := if ttlSecs < 1 then 1 else ttlSecs;
    }

    method Get(key: string) returns (v: Option<Verdict>, ghost now: int)
      ensures v == Lookup(entries, key, now)
      ensures v.Some? ==> key in entries && v.value == entries[key].verdict
    {
      var clock: int := *;
      now := clock;
      if key !in entries {
        return None, now;
      }
      if clock >= entries[key].expires {
        return None, now;
      }
      return Some(entries[key].verdict), now;
    }

    method Put(key: string, verdict: Verdict) returns (ghost now: int, ghost pruneNow: int)
      modifies this
      ensures entries == Stored(old(entries), key, verdict, ttl, now, pruneNow)
    {
      var clock: int := *;
      now := clock;
      entries := entries[key := Entry(verdict, clock + ttl)];
      var later: int := *;
      pruneNow := later;
      if |entries| > PRUNE_ABOVE {
        entries := map k | k in entries && entries[k].expires > later :: entries[k];
      }
    }
  }

  // ---- Evaluating ----

  /** The clock readings made for one policy. */
  datatype Ticks = Ticks(get: int, put: int, prune: int)

  function Applicable(policies: seq<Policy>, input: Input): seq<Policy> {
    if policies == [] then []
    else
      var front, last := Applicable(policies[..|policies| - 1], input), policies[|policies| - 1];
      if Applies(last, input) then front + [last] else front
  }

  /** The verdict used for one policy: the cached one, or a fresh one. */
  function UsedOne(judge: Judge, cache: Cache, p: Policy, input: Input, t: Ticks): Verdict {
    var hit := Lookup(cache, CacheKey(input.digest, p.id), t.get);
    if hit.Some? then hit.value else EvaluateOne(judge, p, input)
  }

  function CacheAfterOne(judge: Judge, ttl: int, cache: Cache, p: Policy, input: Input, t: Ticks): Cache {
    var key := CacheKey(input.digest, p.id);
    if Lookup(cache, key, t.get).Some? then cache
    else Stored(cache, key, EvaluateOne(judge, p, input), ttl, t.put, t.prune)
  }

  function CacheAfter(judge: Judge, ttl: int, cache: Cache, ps: seq<Policy>, input: Input, ts: seq<Ticks>): Cache
    requires |ps| == |ts|
  {
    if ps == [] then cache
    else
      var n := |ps| - 1;
      CacheAfterOne(judge, ttl, CacheAfter(judge, ttl, cache, ps[..n], input, ts[..n]), ps[n], input, ts[n])
  }

  function Used(judge: Judge, ttl: int, cache: Cache, ps: seq<Policy>, input: Input, ts: seq<Ticks>): (vs: seq<Verdict>)
    requires |ps| == |ts|
    ensures |vs| == |ps|
  {
    if ps == [] then []
    else
      var n := |ps| - 1;
      Used(judge, ttl, cache, ps[..n], input, ts[..n])
      + [UsedOne(judge, CacheAfter(judge, ttl, cache, ps[..n], input, ts[..n]), ps[n], input, ts[n])]
  }

  /** What a gate without a cache would use. */
  function Fresh(judge: Judge, ps: seq<Policy>, input: Input): (vs: seq<Verdict>)
    ensures |vs| == |ps|
  {
    if ps == [] then [] else Fresh(judge, ps[..|ps| - 1], input) + [EvaluateOne(judge, ps[|ps| - 1], input)]
  }

  lemma {:induction false} FoldSnoc(worst: Verdict, vs: seq<Verdict>, v: Verdict)
    ensures Fold(worst, vs + [v]) == Merge(Fold(worst, vs), v)
    decreases |vs|
  {
    if vs == [] {
      assert vs + [v] == [v];
      assert Fold(Merge(worst, v), [v][1..]) == Merge(worst, v);
    } else {
      assert (vs + [v])[1..] == vs[1..] + [v];
      FoldSnoc(Merge(worst, vs[0]), vs[1..], v);
    }
  }

  /** Filtering keeps the order: it distributes over concatenation. */
  lemma {:induction false} ApplicableConcat(a: seq<Policy>, b: seq<Policy>, input: Input)
    ensures Applicable(a + b, input) == Applicable(a, input) + Applicable(b, input)
    decreases |b|
  {
    if b == [] {
      assert a + b == a;
    } else {
      var n := |b| - 1;
      ApplicableConcat(a, b[..n], input);
      assert (a + b)[..|a + b| - 1] == a + b[..n];
    }
  }

  /** And it keeps each applicable policy as often as it is listed, and no other. */
  lemma {:induction false} ApplicableExactly(policies: seq<Policy>, input: Input, p: Policy)
    ensures multiset(Applicable(policies, input))[p] == if Applies(p, input) then multiset(policies)[p] else 0
  {
    if policies != [] {
      var front, last := policies[..|policies| - 1], policies[|policies| - 1];
      ApplicableExactly(front, input, p);
      assert policies == front + [last];
    }
  }

  // ---- Which policies count ----

  /** An entry of a scope matches its own text and, when it ends in a star, whatever starts with the rest of it. */
  ghost predicate EntryMatches(entry: string, value: string) {
    entry == value || exists prefix: string :: entry == prefix + "*" && prefix <= value
  }

  /** The policy is enabled, belongs to the tenant, and its scope holds the request's project and repository. */
  ghost predicate InScope(p: Policy, input: Input) {
    && p.enabled && p.tenant == input.tenant
    && (p.projects == [] || "*" in p.projects || input.project in p.projects)
    && (p.repositories == [] || exists entry :: entry in p.repositories && EntryMatches(entry, input.repository))
  }

  lemma EntryMatchesExactly(entry: string, value: string)
    ensures (entry == "*" || entry == value || GlobMatch(entry, value)) <==> EntryMatches(entry, value)
  {
    if entry != "" && entry[|entry| - 1] == '*' {
      assert entry == entry[..|entry| - 1] + "*";
    }
    if entry == "*" {
      assert entry == "" + "*";
    }
    forall prefix: string | entry == prefix + "*" && prefix <= value
      ensures GlobMatch(entry, value)
    {
      assert entry[..|entry| - 1] == prefix;
    }
  }

  lemma SomeEntryMatches(entries: seq<string>, value: string)
    ensures (exists i :: 0 <= i < |entries|
              && (entries[i] == "*" || entries[i] == value || GlobMatch(entries[i], value))) <==>
            exists entry :: entry in entries && EntryMatches(entry, value)
  {
    forall i | 0 <= i < |entries|
      ensures (entries[i] == "*" || entries[i] == value || GlobMatch(entries[i], value)) <==>
              EntryMatches(entries[i], value)
    {
      EntryMatchesExactly(entries[i], value);
    }
    if exists entry :: entry in entries && EntryMatches(entry, value) {
      var entry :| entry in entries && EntryMatches(entry, value);
      var i :| 0 <= i < |entries| && entries[i] == entry;
    }
  }

  lemma SomeProjectMatches(entries: seq<string>, project: string)
    ensures (exists i :: 0 <= i < |entries| && (entries[i] == "*" || entries[i] == project)) <==>
            "*" in entries || project in entries
  {
  }

  lemma AppliesExactly(p: Policy, input: Input)
    ensures Applies(p, input) <==> InScope(p, input)
  {
    SomeProjectMatches(p.projects, input.project);
    SomeEntryMatches(p.repositories, input.repository);
  }

  /**
   * For repository patterns with a star at most at the end, a policy counts if and only if it
   * is enabled, of the tenant, lists no project, all or the request's, and lists no
   * repository or a glob that matches the request's.
   */
  lemma ScopeIsGlobs(p: Policy, input: Input)
    requires forall entry :: entry in p.repositories ==> forall i :: 0 <= i < |entry| - 1 ==> entry[i] != '*'
    ensures p in Applicable([p], input) <==>
            && p.enabled && p.tenant == input.tenant
            && (p.projects == [] || "*" in p.projects || input.project in p.projects)
            && (p.repositories == [] || exists entry :: entry in p.repositories && G.Glob(entry, input.repository))
  {
    AppliesExactly(p, input);
    assert [p][..0] == [];
    forall entry | entry in p.repositories
      ensures EntryMatches(entry, input.repository) <==> G.Glob(entry, input.repository)
    {
      EntryMatchesExactly(entry, input.repository);
      ScopeGlobIsGlob(entry, input.repository);
    }
  }

  /** A policy is kept exactly when it is listed and in scope. */
  lemma KeptExactly(policies: seq<Policy>, input: Input, p: Policy)
    ensures p in Applicable(policies, input) <==> p in policies && InScope(p, input)
  {
    ApplicableExactly(policies, input, p);
    AppliesExactly(p, input);
    assert p in Applicable(policies, input) <==> multiset(Applicable(policies, input))[p] > 0;
    assert p in policies <==> multiset(policies)[p] > 0;
  }

  lemma AllKept(policies: seq<Policy>, input: Input)
    ensures forall p :: p in Applicable(policies, input) <==> p in policies && InScope(p, input)
    ensures (forall p :: p in policies ==> !InScope(p, input)) ==> Applicable(policies, input) == []
  {
    var ps := Applicable(policies, input);
    forall p: Policy
      ensures p in ps <==> p in policies && InScope(p, input)
    {
      KeptExactly(policies, input, p);
    }
    assert ps != [] ==> ps[0] in ps;
  }

  /** A policy out of scope changes nothing, wherever it is listed. */
  lemma OutOfScopeIsSkipped(a: seq<Policy>, p: Policy, b: seq<Policy>, input: Input)
    requires !InScope(p, input)
    ensures Applicable(a + [p] + b, input) == Applicable(a + b, input)
  {
    AppliesExactly(p, input);
    ApplicableConcat(a + [p], b, input);
    ApplicableConcat(a, [p], input);
    ApplicableConcat(a, b, input);
    assert [p][..0] == [];
  }

  method Filter(policies: seq<Policy>, input: Input) returns (ps: seq<Policy>)
    ensures ps == Applicable(policies, input)
    ensures forall p :: p in ps <==> p in policies && InScope(p, input)
  {
    ps := [];
    for i := 0 to |policies|
      invariant ps == Applicable(policies[..i], input)
    {
      assert policies[..i + 1][..i] == policies[..i];
      if Applies(policies[i], input) {
        ps := ps + [policies[i]];
      }
    }
    assert policies[..|policies|] == policies;
    AllKept(policies, input);
  }

  lemma OneMoreUsed(judge: Judge, ttl: int, cache: Cache, ps: seq<Policy>, input: Input, ts: seq<Ticks>, t: Ticks)
    requires |ts| < |ps|
    ensures var done, p := ps[..|ts|], ps[|ts|];
            var before := CacheAfter(judge, ttl, cache, done, input, ts);
            var vs := Used(judge, ttl, cache, ps[..|ts| + 1], input, ts + [t]);
            && CacheAfter(judge, ttl, cache, ps[..|ts| + 1], input, ts + [t]) ==
               CacheAfterOne(judge, ttl, before, p, input, t)
            && Fold(Allow, vs) ==
               Merge(Fold(Allow, Used(judge, ttl, cache, done, input, ts)), UsedOne(judge, before, p, input, t))
  {
    var i := |ts|;
    assert ps[..i + 1][..i] == ps[..i] && (ts + [t])[..i] == ts;
    FoldSnoc(Allow, Used(judge, ttl, cache, ps[..i], input, ts),
             UsedOne(judge, CacheAfter(judge, ttl, cache, ps[..i], input, ts), ps[i], input, t));
  }

  /** One round of the loop over the policies. */
  method UseOne(judge: Judge, p: Policy, cache: DecisionCache, input: Input) returns (v: Verdict, ghost t: Ticks)
    modifies cache
    ensures v == UsedOne(judge, old(cache.entries), p, input, t)
    ensures cache.entries == CacheAfterOne(judge, cache.ttl, old(cache.entries), p, input, t)
  {
    var key := CacheKey(input.digest, p.id);
    var cached, now := cache.Get(key);
    if cached.Some? {
      return cached.value, Ticks(now, 0, 0);
    }
    v := EvaluateOne(judge, p, input);
    ghost var putNow, pruneNow := cache.Put(key, v);
    t := Ticks(now, putNow, pruneNow);
  }

  method Evaluate(judge: Judge, policies: seq<Policy>, cache: DecisionCache, input: Input)
    returns (worst: Verdict, ghost ts: seq<Ticks>)
    modifies cache
    ensures input.bypass ==> worst == Allow && cache.entries == old(cache.entries)
    ensures !input.bypass ==>
              var ps := Applicable(policies, input);
              |ts| == |ps|
              && cache.entries == CacheAfter(judge, cache.ttl, old(cache.entries), ps, input, ts)
              && worst == Fold(Allow, Used(judge, cache.ttl, old(cache.entries), ps, input, ts))
    ensures forall p :: p in Applicable(policies, input) <==> p in policies && InScope(p, input)
    ensures (forall p :: p in policies ==> !InScope(p, input)) ==> worst == Allow && cache.entries == old(cache.entries)
  {
    ts := [];
    AllKept(policies, input);
    if input.bypass {
      return Allow, ts;
    }
    var ps := Filter(policies, input);
    if |ps| == 0 {
      return Allow, ts;
    }
    worst := Allow;
    for i := 0 to |ps|
      invariant |ts| == i
      invariant cache.entries == CacheAfter(judge, cache.ttl, old(cache.entries), ps[..i], input, ts)
      invariant worst == Fold(Allow, Used(judge, cache.ttl, old(cache.entries), ps[..i], input, ts))
    {
      var v, t := UseOne(judge, ps[i], cache, input);
      OneMoreUsed(judge, cache.ttl, old(cache.entries), ps, input, ts, t);
      ts := ts + [t];
      worst := Merge(worst, v);
    }
    assert ps[..|ps|] == ps;
  }

  // ---- Runs that share one cache ----

  /** The verdict each call is bound to, per digest and policy id. */
  type Oracle = (string, Uuid) -> Verdict

  /** Policy content, scan and signature results are fixed per (digest, policy id). */
  ghost predicate Respects(judge: Judge, oracle: Oracle, ps: seq<Policy>, input: Input) {
    forall i :: 0 <= i < |ps| ==> EvaluateOne(judge, ps[i], input) == oracle(input.digest, ps[i].id)
  }

  ghost predicate Agrees(oracle: Oracle, cache: Cache) {
    forall digest: string, id: Uuid :: CacheKey(digest, id) in cache ==>
        cache[CacheKey(digest, id)].verdict == oracle(digest, id)
  }

  lemma StoreKeepsAgreement(oracle: Oracle, cache: Cache, digest: string, id: Uuid, v: Verdict, ttl: int, now: int,
                            pruneNow: int)
    requires Agrees(oracle, cache) && v == oracle(digest, id)
    ensures Agrees(oracle, Stored(cache, CacheKey(digest, id), v, ttl, now, pruneNow))
  {
    forall d: string, k: Uuid | CacheKey(d, k) == CacheKey(digest, id)
      ensures d == digest && k == id
    {
      CacheKeyInjective(d, k, digest, id);
    }
  }

  lemma {:induction false} LoopUsesFresh(judge: Judge, oracle: Oracle, ttl: int, cache: Cache, ps: seq<Policy>,
                                         input: Input, ts: seq<Ticks>)
    requires |ps| == |ts| && Agrees(oracle, cache) && Respects(judge, oracle, ps, input)
    ensures Used(judge, ttl, cache, ps, input, ts) == Fresh(judge, ps, input)
    ensures Agrees(oracle, CacheAfter(judge, ttl, cache, ps, input, ts))
    decreases |ps|
  {
    if ps != [] {
      var n := |ps| - 1;
      LoopUsesFresh(judge, oracle, ttl, cache, ps[..n], input, ts[..n]);
      assert EvaluateOne(judge, ps[n], input) == oracle(input.digest, ps[n].id);
      var mid := CacheAfter(judge, ttl, cache, ps[..n], input, ts[..n]);
      StoreKeepsAgreement(oracle, mid, input.digest, ps[n].id, EvaluateOne(judge, ps[n], input), ttl, ts[n].put,
          ts[n].prune);
    }
  }

  /** An undisturbed call on a cache that agrees with the oracle answers as a gate without a cache. */
  lemma CallIsTransparent(judge: Judge, oracle: Oracle, ttl: int, cache: Cache, ps: seq<Policy>, input: Input,
                          ts: seq<Ticks>)
    requires |ps| == |ts| && Agrees(oracle, cache) && Respects(judge, oracle, ps, input)
    ensures Fold(Allow, Used(judge, ttl, cache, ps, input, ts)) == Fold(Allow, Fresh(judge, ps, input))
  {
    LoopUsesFresh(judge, oracle, ttl, cache, ps, input, ts);
  }

  // ---- Calls that interleave on one cache ----

  /** A call in progress: `done` policies are merged into `worst`; after a miss it evaluates the next one. */
  datatype Job = Job(ps: seq<Policy>, input: Input, done: nat, evaluating: bool, worst: Verdict)

  /** A verdict that some call computed and stored, and the clock it was stored at. */
  datatype Record = Record(key: string, verdict: Verdict, at: int)

  /** `records` has one entry for each `put` that took place. */
  datatype Gate = Gate(cache: Cache, jobs: map<nat, Job>, records: seq<Record>)

  datatype Step =
    | Begin(id: nat, ps: seq<Policy>, input: Input)
    | Look(id: nat, at: int)
    | Store(id: nat, at: int, pruneAt: int)

  predicate Enabled(g: Gate, step: Step) {
    match step
    case Begin(id, _, _) => id !in g.jobs
    case Look(id, _) => id in g.jobs && !g.jobs[id].evaluating && g.jobs[id].done < |g.jobs[id].ps|
    case Store(id, _, _) => id in g.jobs && g.jobs[id].evaluating && g.jobs[id].done < |g.jobs[id].ps|
  }

  function KeyOf(j: Job): string
    requires j.done < |j.ps|
  {
    CacheKey(j.input.digest, j.ps[j.done].id)
  }

  function Merged(j: Job, v: Verdict): Job {
    j.(done := j.done + 1, evaluating := false, worst := Merge(j.worst, v))
  }

  function Next(judge: Judge, ttl: int, g: Gate, step: Step): Gate
    requires Enabled(g, step)
  {
    match step
    case Begin(id, ps, input) => g.(jobs := g.jobs[id := Job(ps, input, 0, false, Allow)])
    case Look(id, at) =>
      var j := g.jobs[id];
      var hit := Lookup(g.cache, KeyOf(j), at);
      g.(jobs := g.jobs[id := if hit.Some? then Merged(j, hit.value) else j.(evaluating := true)])
    case Store(id, at, pruneAt) =>
      var j := g.jobs[id];
      var v := EvaluateOne(judge, j.ps[j.done], j.input);
      Gate(Stored(g.cache, KeyOf(j), v, ttl, at, pruneAt), g.jobs[id := Merged(j, v)],
          g.records + [Record(KeyOf(j), v, at)])
  }

  /** Looking and, on a miss, storing. */
  ghost function Round(judge: Judge, ttl: int, g: Gate, id: nat, t: Ticks): Gate
    requires Enabled(g, Look(id, t.get))
  {
    var looked := Next(judge, ttl, g, Look(id, t.get));
    if looked.jobs[id].evaluating then Next(judge, ttl, looked, Store(id, t.put, t.prune)) else looked
  }

  /** Undisturbed, that is one round of the evaluation loop. */
  lemma OneRound(judge: Judge, ttl: int, g: Gate, id: nat, t: Ticks)
    requires Enabled(g, Look(id, t.get))
    ensures var j, after := g.jobs[id], Round(judge, ttl, g, id, t);
            && after.cache == CacheAfterOne(judge, ttl, g.cache, j.ps[j.done], j.input, t)
            && after.jobs == g.jobs[id := Merged(j, UsedOne(judge, g.cache, j.ps[j.done], j.input, t))]
  {
  }

  ghost predicate Runnable(judge: Judge, ttl: int, g: Gate, steps: seq<Step>)
    decreases |steps|
  {
    steps == [] || (Enabled(g, steps[0]) && Runnable(judge, ttl, Next(judge, ttl, g, steps[0]), steps[1..]))
  }

  ghost function Run(judge: Judge, ttl: int, g: Gate, steps: seq<Step>): Gate
    requires Runnable(judge, ttl, g, steps)
    decreases |steps|
  {
    if steps == [] then g else Run(judge, ttl, Next(judge, ttl, g, steps[0]), steps[1..])
  }

  lemma {:induction false} OneStepMore(judge: Judge, ttl: int, g: Gate, steps: seq<Step>, step: Step)
    requires Runnable(judge, ttl, g, steps) && Enabled(Run(judge, ttl, g, steps), step)
    ensures Runnable(judge, ttl, g, steps + [step])
    ensures Run(judge, ttl, g, steps + [step]) == Next(judge, ttl, Run(judge, ttl, g, steps), step)
    decreases |steps|
  {
    if steps == [] {
      assert steps + [step] == [step] && [step][1..] == [];
    } else {
      OneStepMore(judge, ttl, Next(judge, ttl, g, steps[0]), steps[1..], step);
      assert (steps + [step])[1..] == steps[1..] + [step] && (steps + [step])[0] == steps[0];
    }
  }

  /** The call has merged its first `n` policies exactly as the evaluation loop does, and left other calls alone. */
  ghost predicate AsInLoop(judge: Judge, ttl: int, before: Gate, g: Gate, id: nat, ps: seq<Policy>, input: Input,
                           ts: seq<Ticks>)
    requires |ts| <= |ps|
  {
    var done := ps[..|ts|];
    && id in g.jobs && g.jobs == before.jobs[id := g.jobs[id]]
    && g.jobs[id] == Job(ps, input, |ts|, false, Fold(Allow, Used(judge, ttl, before.cache, done, input, ts)))
    && g.cache == CacheAfter(judge, ttl, before.cache, done, input, ts)
  }

  lemma AnotherRound(judge: Judge, ttl: int, before: Gate, g: Gate, id: nat, ps: seq<Policy>, input: Input,
                     ts: seq<Ticks>, t: Ticks)
    requires |ts| < |ps| && AsInLoop(judge, ttl, before, g, id, ps, input, ts)
    ensures Enabled(g, Look(id, t.get))
    ensures AsInLoop(judge, ttl, before, Round(judge, ttl, g, id, t), id, ps, input, ts + [t])
  {
    OneRound(judge, ttl, g, id, t);
    RoundIsAsInLoop(judge, ttl, before, g, Round(judge, ttl, g, id, t), id, ps, input, ts, t);
  }

  lemma RoundIsAsInLoop(judge: Judge, ttl: int, before: Gate, g: Gate, h: Gate, id: nat, ps: seq<Policy>, input: Input,
                        ts: seq<Ticks>, t: Ticks)
    requires |ts| < |ps| && AsInLoop(judge, ttl, before, g, id, ps, input, ts)
    requires h.cache == CacheAfterOne(judge, ttl, g.cache, ps[|ts|], input, t)
    requires h.jobs == g.jobs[id := Merged(g.jobs[id], UsedOne(judge, g.cache, ps[|ts|], input, t))]
    ensures AsInLoop(judge, ttl, before, h, id, ps, input, ts + [t])
  {
    OneMoreUsed(judge, ttl, before.cache, ps, input, ts, t);
  }

  lemma RoundIsSteps(judge: Judge, ttl: int, g: Gate, steps: seq<Step>, id: nat, t: Ticks) returns (more: seq<Step>)
    requires Runnable(judge, ttl, g, steps) && Enabled(Run(judge, ttl, g, steps), Look(id, t.get))
    ensures steps <= more && Runnable(judge, ttl, g, more)
    ensures Run(judge, ttl, g, more) == Round(judge, ttl, Run(judge, ttl, g, steps), id, t)
  {
    OneStepMore(judge, ttl, g, steps, Look(id, t.get));
    more := steps + [Look(id, t.get)];
    if Run(judge, ttl, g, more).jobs[id].evaluating {
      OneStepMore(judge, ttl, g, more, Store(id, t.put, t.prune));
      more := more + [Store(id, t.put, t.prune)];
    }
  }

  /** A call that begins and is left alone takes steps that compute what the evaluation loop computes. */
  lemma {:induction false} AloneIsTheLoop(judge: Judge, ttl: int, g: Gate, id: nat, ps: seq<Policy>, input: Input,
                                          ts: seq<Ticks>)
    returns (steps: seq<Step>)
    requires id !in g.jobs && |ts| <= |ps|
    ensures Runnable(judge, ttl, g, steps) && steps != [] && steps[0] == Begin(id, ps, input)
    ensures AsInLoop(judge, ttl, g, Run(judge, ttl, g, steps), id, ps, input, ts)
    decreases |ts|
  {
    if ts == [] {
      OneStepMore(judge, ttl, g, [], Begin(id, ps, input));
      steps := [] + [Begin(id, ps, input)];
    } else {
      var n := |ts| - 1;
      var front := AloneIsTheLoop(judge, ttl, g, id, ps, input, ts[..n]);
      AnotherRound(judge, ttl, g, Run(judge, ttl, g, front), id, ps, input, ts[..n], ts[n]);
      steps := RoundIsSteps(judge, ttl, g, front, id, ts[n]);
      assert ts[..n] + [ts[n]] == ts;
    }
  }

  const NEW_GATE := Gate(map[], map[], [])

  /** Every call begun respects the oracle. */
  ghost predicate AllRespect(judge: Judge, oracle: Oracle, steps: seq<Step>) {
    forall i :: 0 <= i < |steps| && steps[i].Begin? ==> Respects(judge, oracle, steps[i].ps, steps[i].input)
  }

  ghost predicate OnTrack(judge: Judge, oracle: Oracle, j: Job) {
    j.done <= |j.ps| && Respects(judge, oracle, j.ps, j.input)
        && j.worst == Fold(Allow, Fresh(judge, j.ps[..j.done], j.input))
  }

  ghost predicate Transparent(judge: Judge, oracle: Oracle, g: Gate) {
    Agrees(oracle, g.cache) && forall id :: id in g.jobs ==> OnTrack(judge, oracle, g.jobs[id])
  }

  lemma MergingStaysOnTrack(judge: Judge, oracle: Oracle, j: Job)
    requires OnTrack(judge, oracle, j) && j.done < |j.ps|
    ensures OnTrack(judge, oracle, Merged(j, EvaluateOne(judge, j.ps[j.done], j.input)))
  {
    var front := j.ps[..j.done];
    assert j.ps[..j.done + 1][..j.done] == front;
    FoldSnoc(Allow, Fresh(judge, front, j.input), EvaluateOne(judge, j.ps[j.done], j.input));
  }

  lemma StepIsTransparent(judge: Judge, oracle: Oracle, ttl: int, g: Gate, step: Step)
    requires Transparent(judge, oracle, g) && Enabled(g, step)
    requires step.Begin? ==> Respects(judge, oracle, step.ps, step.input)
    ensures Transparent(judge, oracle, Next(judge, ttl, g, step))
  {
    match step {
      case Begin(id, ps, input) =>
        assert ps[..0] == [] && Fresh(judge, [], input) == [];
      case Look(id, at) =>
        var j := g.jobs[id];
        assert EvaluateOne(judge, j.ps[j.done], j.input) == oracle(j.input.digest, j.ps[j.done].id);
        MergingStaysOnTrack(judge, oracle, j);
      case Store(id, at, pruneAt) =>
        var j := g.jobs[id];
        var v := EvaluateOne(judge, j.ps[j.done], j.input);
        assert v == oracle(j.input.digest, j.ps[j.done].id);
        MergingStaysOnTrack(judge, oracle, j);
        StoreKeepsAgreement(oracle, g.cache, j.input.digest, j.ps[j.done].id, v, ttl, at, pruneAt);
    }
  }

  lemma {:induction false} RunIsTransparent(judge: Judge, oracle: Oracle, ttl: int, g: Gate, steps: seq<Step>)
    requires Transparent(judge, oracle, g) && Runnable(judge, ttl, g, steps) && AllRespect(judge, oracle, steps)
    ensures Transparent(judge, oracle, Run(judge, ttl, g, steps))
    decreases |steps|
  {
    if steps != [] {
      StepIsTransparent(judge, oracle, ttl, g, steps[0]);
      assert forall i :: 0 <= i < |steps[1..]| ==> steps[1..][i] == steps[i + 1];
      RunIsTransparent(judge, oracle, ttl, Next(judge, ttl, g, steps[0]), steps[1..]);
    }
  }

  /**
   * However the lookups and stores of concurrent calls interleave, and whatever the clock,
   * expiry and pruning do, every call that has finished answers exactly as a gate without
   * a cache would.
   */
  lemma CacheIsTransparent(judge: Judge, oracle: Oracle, ttl: int, steps: seq<Step>, id: nat)
    requires Runnable(judge, ttl, NEW_GATE, steps) && AllRespect(judge, oracle, steps)
    ensures var g := Run(judge, ttl, NEW_GATE, steps);
            id in g.jobs && g.jobs[id].done == |g.jobs[id].ps| ==>
              g.jobs[id].worst == Fold(Allow, Fresh(judge, g.jobs[id].ps, g.jobs[id].input))
  {
    RunIsTransparent(judge, oracle, ttl, NEW_GATE, steps);
    var g := Run(judge, ttl, NEW_GATE, steps);
    if id in g.jobs && g.jobs[id].done == |g.jobs[id].ps| {
      var j := g.jobs[id];
      assert OnTrack(judge, oracle, j) && j.ps[..j.done] == j.ps;
    }
  }

  ghost predicate Pruned(cache: Cache, key: string, ttl: int, s: Ticks) {
    |cache.Keys + {key}| > PRUNE_ABOVE && s.put + ttl <= s.prune
  }

  /**
   * The assumption is needed, and only until the entry is gone: after a verdict was stored
   * on a miss, a lookup of the same digest and policy id agrees with a fresh evaluation if
   * and only if the entry has expired, was pruned at once, or holds the same verdict.
   */
  lemma StoredVerdictIsServed(judge: Judge, ttl: int, cache: Cache, p: Policy, earlier: Input, q: Policy, now: Input,
                              s: Ticks, t: Ticks)
    requires p.id == q.id && earlier.digest == now.digest
    requires Lookup(cache, CacheKey(earlier.digest, p.id), s.get).None?
    ensures var after := CacheAfterOne(judge, ttl, cache, p, earlier, s);
            UsedOne(judge, after, q, now, t) == EvaluateOne(judge, q, now) <==>
            || t.get >= s.put + ttl
            || Pruned(cache, CacheKey(earlier.digest, p.id), ttl, s)
            || EvaluateOne(judge, p, earlier) == EvaluateOne(judge, q, now)
  {
    var key := CacheKey(earlier.digest, p.id);
    StoringDropsOnlyExpired(cache, key, EvaluateOne(judge, p, earlier), ttl, s.put, s.prune, key);
  }

  // ---- Without the assumption: how stale a verdict can be ----

  /** Everything in the cache was stored by some call. */
  ghost predicate Recorded(ttl: int, g: Gate) {
    forall k :: k in g.cache ==> Record(k, g.cache[k].verdict, g.cache[k].expires - ttl) in g.records
  }

  lemma StepKeepsRecorded(judge: Judge, ttl: int, g: Gate, step: Step)
    requires Recorded(ttl, g) && Enabled(g, step)
    ensures Recorded(ttl, Next(judge, ttl, g, step))
  {
    if step.Store? {
      var j := g.jobs[step.id];
      StoreIsRecorded(ttl, g, KeyOf(j), EvaluateOne(judge, j.ps[j.done], j.input), step.at, step.pruneAt);
    } else {
      OnlyStoresWrite(judge, ttl, g, step);
    }
  }

  lemma OnlyStoresWrite(judge: Judge, ttl: int, g: Gate, step: Step)
    requires Enabled(g, step) && !step.Store?
    ensures Next(judge, ttl, g, step).cache == g.cache && Next(judge, ttl, g, step).records == g.records
  {
  }

  lemma StoreIsRecorded(ttl: int, g: Gate, key: string, v: Verdict, at: int, pruneAt: int)
    requires Recorded(ttl, g)
    ensures Recorded(ttl, Gate(Stored(g.cache, key, v, ttl, at, pruneAt), g.jobs, g.records + [Record(key, v, at)]))
  {
    var cache, records := Stored(g.cache, key, v, ttl, at, pruneAt), g.records + [Record(key, v, at)];
    assert records[|g.records|] == Record(key, v, at);
    forall k | k in cache
      ensures Record(k, cache[k].verdict, cache[k].expires - ttl) in records
    {
      StoredEntry(g.cache, key, v, ttl, at, pruneAt, k);
    }
  }

  lemma StoredEntry(cache: Cache, key: string, v: Verdict, ttl: int, now: int, pruneNow: int, k: string)
    requires k in Stored(cache, key, v, ttl, now, pruneNow)
    ensures k != key ==> k in cache
    ensures Stored(cache, key, v, ttl, now, pruneNow)[k] == if k == key then Entry(v, now + ttl) else cache[k]
  {
  }

  lemma {:induction false} RunKeepsRecorded(judge: Judge, ttl: int, g: Gate, steps: seq<Step>)
    requires Recorded(ttl, g) && Runnable(judge, ttl, g, steps)
    ensures Recorded(ttl, Run(judge, ttl, g, steps))
    decreases |steps|
  {
    if steps != [] {
      StepKeepsRecorded(judge, ttl, g, steps[0]);
      RunKeepsRecorded(judge, ttl, Next(judge, ttl, g, steps[0]), steps[1..]);
    }
  }

  /**
   * With nothing assumed about policies, scans or signatures: whenever a call takes a
   * verdict from the cache, some call computed that verdict for the same digest and policy
   * id and stored it less than one lifetime before the clock reading that found it.
   */
  lemma VerdictsAreAtMostOneTtlOld(judge: Judge, ttl: int, steps: seq<Step>, id: nat, at: int)
    requires Runnable(judge, ttl, NEW_GATE, steps) && Enabled(Run(judge, ttl, NEW_GATE, steps), Look(id, at))
    ensures var g := Run(judge, ttl, NEW_GATE, steps);
            var hit := Lookup(g.cache, KeyOf(g.jobs[id]), at);
            hit.Some? ==>
                exists r :: r in g.records && r.key == KeyOf(g.jobs[id]) && r.verdict == hit.value && at < r.at + ttl
  {
    RunKeepsRecorded(judge, ttl, NEW_GATE, steps);
    var g := Run(judge, ttl, NEW_GATE, steps);
    var key := KeyOf(g.jobs[id]);
    if Lookup(g.cache, key, at).Some? {
      var r := Record(key, g.cache[key].verdict, g.cache[key].expires - ttl);
      assert r in g.records;
    }
  }

  /** And the records are exactly what the stores of the run computed, in order. */
  ghost function StoresOf(judge: Judge, ttl: int, g: Gate, steps: seq<Step>): seq<Record>
    requires Runnable(judge, ttl, g, steps)
    decreases |steps|
  {
    if steps == [] then []
    else
      var rest := StoresOf(judge, ttl, Next(judge, ttl, g, steps[0]), steps[1..]);
      if steps[0].Store? then
        var j := g.jobs[steps[0].id];
        [Record(KeyOf(j), EvaluateOne(judge, j.ps[j.done], j.input), steps[0].at)] + rest
      else rest
  }

  lemma {:induction false} RecordsAreStores(judge: Judge, ttl: int, g: Gate, steps: seq<Step>)
    requires Runnable(judge, ttl, g, steps)
    ensures Run(judge, ttl, g, steps).records == g.records + StoresOf(judge, ttl, g, steps)
    decreases |steps|
  {
    if steps == [] {
      assert g.records + [] == g.records;
    } else {
      RecordsAreStores(judge, ttl, Next(judge, ttl, g, steps[0]), steps[1..]);
    }
  }
}
