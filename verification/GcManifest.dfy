/**
 * The blobs a manifest counts for (crates/specton-gc/src/manifest.rs). Reading the JSON
 * body is a parameter.
 */
module GcManifest {
  import opened Common
  import opened GcTables

  datatype RawManifest = RawManifest(config: Option<Blob>, layers: seq<Blob>, manifests: seq<Blob>,
                                     subject: Option<Blob>)

  /** Every descriptor that counts, in the order it is looked at; the subject does not. */
  function Counted(raw: RawManifest): seq<Blob> {
    (if raw.config.Some? then [raw.config.value] else []) + raw.layers + raw.manifests
  }

  function Digests(bs: seq<Blob>): set<string> {
    set i | 0 <= i < |bs| :: bs[i].digest
  }

  /** The first descriptor of every non-empty digest, in order. */
  ghost predicate FirstOfEach(all: seq<Blob>, out: seq<Blob>) {
    && (forall i, j :: 0 <= i < j < |out| ==> out[i].digest != out[j].digest)
    && (forall i :: 0 <= i < |out| ==> out[i].digest != "" && IsFirst(all, out[i]))
    && (forall d :: Lists(out, d) <==> d != "" && Lists(all, d))
    && InOrder(all, out)
  }

  ghost predicate FirstAt(all: seq<Blob>, b: Blob, i: nat) {
    i < |all| && all[i] == b && forall j :: 0 <= j < i ==> all[j].digest != b.digest
  }

  ghost predicate IsFirst(all: seq<Blob>, b: Blob) {
    exists i: nat :: FirstAt(all, b, i)
  }

  ghost predicate Earlier(all: seq<Blob>, a: Blob, b: Blob) {
    exists i: nat, j: nat :: i < j && FirstAt(all, a, i) && FirstAt(all, b, j)
  }

  ghost predicate InOrder(all: seq<Blob>, out: seq<Blob>) {
    forall i, j :: 0 <= i < j < |out| ==> Earlier(all, out[i], out[j])
  }

  lemma FirstAtExtends(all: seq<Blob>, more: Blob, b: Blob, i: nat)
    requires FirstAt(all, b, i)
    ensures FirstAt(all + [more], b, i)
  {
    assert forall j :: 0 <= j <= i ==> (all + [more])[j] == all[j];
  }

  lemma ListsMore(all: seq<Blob>, b: Blob, d: string)
    ensures Lists(all + [b], d) <==> Lists(all, d) || b.digest == d
  {
    ListsLast(all + [b], d);
    assert (all + [b])[..|all|] == all;
  }

  lemma ListsAfterPush(all: seq<Blob>, out: seq<Blob>, b: Blob)
    requires forall d :: Lists(out, d) <==> d != "" && Lists(all, d)
    ensures forall d :: Lists(if b.digest != "" && !Lists(out, b.digest) then out + [b] else out, d) <==>
            d != "" && Lists(all + [b], d)
  {
    forall d: string
      ensures Lists(if b.digest != "" && !Lists(out, b.digest) then out + [b] else out, d) <==>
              d != "" && Lists(all + [b], d)
    {
      ListsMore(all, b, d);
      ListsMore(out, b, d);
    }
  }

  lemma FirstsStay(all: seq<Blob>, out: seq<Blob>, b: Blob)
    requires forall i :: 0 <= i < |out| ==> IsFirst(all, out[i])
    ensures forall i :: 0 <= i < |out| ==> IsFirst(all + [b], out[i])
  {
    forall i | 0 <= i < |out|
      ensures IsFirst(all + [b], out[i])
    {
      assert IsFirst(all, out[i]);
      var k: nat :| FirstAt(all, out[i], k);
      FirstAtExtends(all, b, out[i], k);
    }
  }

  lemma NewIsFirst(all: seq<Blob>, b: Blob)
    requires !Lists(all, b.digest)
    ensures FirstAt(all + [b], b, |all|)
  {
    assert forall j :: 0 <= j < |all| ==> (all + [b])[j] == all[j] && Lists(all, all[j].digest);
  }

  lemma SkipOne(all: seq<Blob>, out: seq<Blob>, b: Blob)
    requires FirstOfEach(all, out) && (b.digest == "" || Lists(out, b.digest))
    ensures FirstOfEach(all + [b], out)
  {
    FirstsStay(all, out, b);
    ListsAfterPush(all, out, b);
    OrderExtends(all, out, b);
  }

  lemma TakeOne(all: seq<Blob>, out: seq<Blob>, b: Blob)
    requires FirstOfEach(all, out) && b.digest != "" && !Lists(out, b.digest)
    ensures FirstOfEach(all + [b], out + [b])
  {
    FirstsStay(all, out, b);
    ListsAfterPush(all, out, b);
    OrderExtends(all, out, b);
    NewIsFirst(all, b);
    NewComesLast(all, out, b);
    assert forall i :: 0 <= i < |out| ==> Lists(out, out[i].digest);
  }

  /** Looking at one more descriptor: it is kept if it is named and new. */
  lemma PushOne(all: seq<Blob>, out: seq<Blob>, b: Blob)
    requires FirstOfEach(all, out)
    ensures FirstOfEach(all + [b], if b.digest != "" && !Lists(out, b.digest) then out + [b] else out)
  {
    if b.digest != "" && !Lists(out, b.digest) {
      TakeOne(all, out, b);
    } else {
      SkipOne(all, out, b);
    }
  }

  /** The same, with the set of digests seen so far. */
  lemma PushSeen(all: seq<Blob>, out: seq<Blob>, b: Blob)
    requires FirstOfEach(all, out)
    ensures b.digest != "" && b.digest !in Digests(out) ==>
            FirstOfEach(all + [b], out + [b]) && Digests(out + [b]) == Digests(out) + {b.digest}
    ensures b.digest == "" || b.digest in Digests(out) ==> FirstOfEach(all + [b], out)
  {
    PushOne(all, out, b);
    SeenMeansListed(out, b.digest);
    DigestsMore(out, b);
  }

  lemma OrderExtends(all: seq<Blob>, out: seq<Blob>, b: Blob)
    requires InOrder(all, out)
    ensures InOrder(all + [b], out)
  {
    forall i, j | 0 <= i < j < |out|
      ensures Earlier(all + [b], out[i], out[j])
    {
      assert Earlier(all, out[i], out[j]);
      var m: nat, n: nat :| m < n && FirstAt(all, out[i], m) && FirstAt(all, out[j], n);
      FirstAtExtends(all, b, out[i], m);
      FirstAtExtends(all, b, out[j], n);
    }
  }

  lemma NewComesLast(all: seq<Blob>, out: seq<Blob>, b: Blob)
    requires FirstOfEach(all, out) && InOrder(all + [b], out) && FirstAt(all + [b], b, |all|)
    ensures InOrder(all + [b], out + [b])
  {
    forall i, j | 0 <= i < j < |out + [b]|
      ensures Earlier(all + [b], (out + [b])[i], (out + [b])[j])
    {
      if j == |out| {
        assert IsFirst(all, out[i]);
        var k: nat :| FirstAt(all, out[i], k);
        FirstAtExtends(all, b, out[i], k);
        assert k < |all|;
      } else {
        assert Earlier(all + [b], out[i], out[j]);
      }
    }
  }

  method PushAll(ghost all: seq<Blob>, out: seq<Blob>, seen: set<string>, items: seq<Blob>)
    returns (sink: seq<Blob>, known: set<string>)
    requires FirstOfEach(all, out) && seen == Digests(out)
    ensures FirstOfEach(all + items, sink) && known == Digests(sink)
  {
    sink, known := out, seen;
    assert all + items[..0] == all;
    for i := 0 to |items|
      invariant FirstOfEach(all + items[..i], sink) && known == Digests(sink)
    {
      var d := items[i];
      PushSeen(all + items[..i], sink, d);
      assert all + items[..i] + [d] == all + items[..i + 1];
      if d.digest != "" && d.digest !in known {
        known := known + {d.digest};
        sink := sink + [d];
      }
    }
    assert items[..|items|] == items;
  }

  lemma SeenMeansListed(bs: seq<Blob>, d: string)
    ensures d in Digests(bs) <==> Lists(bs, d)
  {
  }

  lemma DigestsMore(bs: seq<Blob>, b: Blob)
    ensures Digests(bs + [b]) == Digests(bs) + {b.digest}
  {
    forall d: string
      ensures d in Digests(bs + [b]) <==> d in Digests(bs) + {b.digest}
    {
      SeenMeansListed(bs + [b], d);
      SeenMeansListed(bs, d);
      ListsMore(bs, b, d);
    }
  }

  /** Config, then layers, then child manifests; each named digest once, as first seen. */
  method ExtractBlobDigests(raw: Option<RawManifest>) returns (r: Result<seq<Blob>, ()>)
    ensures r.Err? <==> raw.None?
    ensures r.Ok? ==> FirstOfEach(Counted(raw.value), r.value)
    ensures r.Ok? ==>
            var config := if raw.value.config.Some? then [raw.value.config.value] else [];
            FirstOfEach(config + raw.value.layers + raw.value.manifests, r.value)
  {
    if raw.None? {
      return Err(());
    }
    var config := if raw.value.config.Some? then [raw.value.config.value] else [];
    var out, seen := PushAll([], [], {}, config);
    assert [] + config == config;
    out, seen := PushAll(config, out, seen, raw.value.layers);
    out, seen := PushAll(config + raw.value.layers, out, seen, raw.value.manifests);
    return Ok(out);
  }

  /** The list is determined by what it promises. */
  lemma FirstOfEachUnique(all: seq<Blob>, a: seq<Blob>, b: seq<Blob>)
    requires FirstOfEach(all, a) && FirstOfEach(all, b)
    ensures a == b
  {
    NotLonger(all, a, b);
    NotLonger(all, b, a);
    if a != [] {
      PrefixesAgree(all, a, b, |a| - 1);
    }
  }

  lemma NotLonger(all: seq<Blob>, a: seq<Blob>, b: seq<Blob>)
    requires FirstOfEach(all, a) && FirstOfEach(all, b)
    ensures |a| <= |b|
  {
    if |b| < |a| {
      if b != [] {
        PrefixesAgree(all, a, b, |b| - 1);
      }
      var d := a[|b|].digest;
      assert Lists(a, d);
    }
  }

  ghost predicate AgreeUpTo(a: seq<Blob>, b: seq<Blob>, n: nat) {
    n <= |a| && n <= |b| && a[..n] == b[..n]
  }

  lemma {:induction false} PrefixesAgree(all: seq<Blob>, a: seq<Blob>, b: seq<Blob>, n: nat)
    requires FirstOfEach(all, a) && FirstOfEach(all, b) && n < |a| && n < |b|
    ensures AgreeUpTo(a, b, n + 1)
  {
    if n > 0 {
      PrefixesAgree(all, a, b, n - 1);
    }
    assert AgreeUpTo(a, b, n);
    NotBefore(all, a, b, n);
    NotBefore(all, b, a, n);
  }

  /** Where two lists first differ, neither may come before the other. */
  lemma NotBefore(all: seq<Blob>, a: seq<Blob>, b: seq<Blob>, n: nat)
    requires FirstOfEach(all, a) && FirstOfEach(all, b) && AgreeUpTo(a, b, n) && n < |a| && n < |b|
    ensures a[n] == b[n] || Earlier(all, b[n], a[n])
  {
    assert IsFirst(all, a[n]) && IsFirst(all, b[n]);
    var d := a[n].digest;
    assert Lists(a, d);
    assert Lists(b, d);
    assert forall i :: 0 <= i < n ==> a[i] == a[..n][i] == b[..n][i] == b[i];
    var j :| 0 <= j < |b| && b[j].digest == d;
    if j == n {
      SameFirst(all, a[n], b[n]);
    } else {
      SameFirst(all, a[n], b[j]);
      assert Earlier(all, b[n], b[j]);
    }
  }

  lemma SameFirst(all: seq<Blob>, a: Blob, b: Blob)
    requires IsFirst(all, a) && IsFirst(all, b) && a.digest == b.digest
    ensures a == b
  {
    var i: nat :| FirstAt(all, a, i);
    var j: nat :| FirstAt(all, b, j);
    assert i == j;
  }

  /** The config, a layer or a child manifest has the digest. */
  ghost predicate Names(raw: RawManifest, d: string) {
    || (raw.config.Some? && raw.config.value.digest == d)
    || (exists i :: 0 <= i < |raw.layers| && raw.layers[i].digest == d)
    || (exists i :: 0 <= i < |raw.manifests| && raw.manifests[i].digest == d)
  }

  lemma ListsConcat(a: seq<Blob>, b: seq<Blob>, d: string)
    ensures Lists(a + b, d) <==> Lists(a, d) || Lists(b, d)
  {
    if Lists(a, d) {
      var i :| 0 <= i < |a| && a[i].digest == d;
      assert (a + b)[i].digest == d;
    }
    if Lists(b, d) {
      var i :| 0 <= i < |b| && b[i].digest == d;
      assert (a + b)[|a| + i].digest == d;
    }
  }

  lemma CountedExactly(raw: RawManifest, d: string)
    ensures Lists(Counted(raw), d) <==> Names(raw, d)
  {
    var config := if raw.config.Some? then [raw.config.value] else [];
    ListsConcat(config + raw.layers, raw.manifests, d);
    ListsConcat(config, raw.layers, d);
    assert raw.config.Some? ==> config[0] == raw.config.value;
  }

  /**
   * Pushing a manifest nobody has pushed before counts exactly the non-empty digests of
   * its config, layers and child manifests, each once.
   */
  lemma PushCountsManifest(s: Tables, p: Push, raw: RawManifest, blobs: seq<Blob>, k: Key)
    requires FirstOfEach(Counted(raw), blobs) && EdgesOf(s.edges, p.tenant, p.manifest) == {}
    ensures Count(Added(s, p, blobs).rows, k) ==
            Count(s.rows, k) + if k.tenant == p.tenant && k.blob != "" && Names(raw, k.blob) then 1 else 0
  {
    AddedExactly(s, p, blobs);
    CountedExactly(raw, k.blob);
    assert EdgeOf(p, k.blob) in s.edges <==> EdgeOf(p, k.blob) in EdgesOf(s.edges, p.tenant, p.manifest);
    assert Lists(blobs, k.blob) <==> k.blob != "" && Lists(Counted(raw), k.blob);
  }
}
