/**
 * Promotion of an image between repositories (crates/specton-registry/src/promote.rs).
 *
 * Every store call may fail, and a failed write may or may not have taken effect.
 * The store remembers every state it has been in, so a statement about its history
 * is a statement about every point at which the promotion could have stopped. Objects
 * are kept by place, so two paths that differ in empty segments are the same object.
 * JSON parsing and UTF-8 are parameters.
 */
module Promotion {
  import opened Common
  import opened Json
  import opened Text
  import opened StoragePaths

  type Objects = map<Place, Bytes>

  datatype Codec = Codec(parse: Bytes -> Option<Json>, text: Bytes -> string, encode: string -> Bytes)

  /** Text written as bytes reads back. */
  ghost predicate ReadsBack(c: Codec, s: string) {
    c.text(c.encode(s)) == s
  }

  datatype Error = TagUnknown | ManifestUnknown | ManifestInvalid | BlobUnknown(digest: string) | Storage

  // ---- What a manifest refers to ----

  function DigestOf(j: Json): Option<string> {
    var d := j.Get("digest");
    if d.Some? then d.value.AsStr() else None
  }

  function Digests(items: seq<Json>): seq<string> {
    if items == [] then []
    else
      var front, last := Digests(items[..|items| - 1]), DigestOf(items[|items| - 1]);
      if last.Some? then front + [last.value] else front
  }

  function Elements(j: Json, name: string): seq<Json> {
    var v := j.Get(name);
    if v.Some? then v.value.Elements() else []
  }

  function ConfigDigest(j: Json): seq<string> {
    var c := j.Get("config");
    if c.Some? && DigestOf(c.value).Some? then [DigestOf(c.value).value] else []
  }

  /** Config, then layers, then child manifests; one level only. */
  function Referenced(j: Json): seq<string> {
    ConfigDigest(j) + Digests(Elements(j, "layers")) + Digests(Elements(j, "manifests"))
  }

  /** The object's member `digest` is the text `d`. */
  ghost predicate Carries(j: Json, d: string) {
    j.Obj? && "digest" in j.fields && j.fields["digest"] == Str(d)
  }

  /** Some element of the array under the name carries the digest. */
  ghost predicate SomeCarries(j: Json, name: string, d: string) {
    j.Obj? && name in j.fields && j.fields[name].Arr? && exists e :: e in j.fields[name].items && Carries(e, d)
  }

  /** A digest is listed exactly when the config, a layer or a child manifest carries it. */
  lemma ReferencedExactly(j: Json, d: string)
    ensures d in Referenced(j) <==>
            || (j.Obj? && "config" in j.fields && Carries(j.fields["config"], d))
            || SomeCarries(j, "layers", d)
            || SomeCarries(j, "manifests", d)
  {
    DigestsExactly(Elements(j, "layers"), d);
    DigestsExactly(Elements(j, "manifests"), d);
    forall e: Json
      ensures DigestOf(e) == Some(d) <==> Carries(e, d)
    {
    }
  }

  lemma {:induction false} DigestsExactly(items: seq<Json>, d: string)
    ensures d in Digests(items) <==> exists e :: e in items && DigestOf(e) == Some(d)
  {
    if items != [] {
      var front, last := items[..|items| - 1], items[|items| - 1];
      DigestsExactly(front, d);
      assert forall e :: e in items <==> e in front || e == last;
    }
  }

  method PushDigests(out: seq<string>, items: seq<Json>) returns (more: seq<string>)
    ensures more == out + Digests(items)
  {
    more := out;
    for i := 0 to |items|
      invariant more == out + Digests(items[..i])
    {
      assert items[..i + 1][..i] == items[..i];
      var d := DigestOf(items[i]);
      if d.Some? {
        more := more + [d.value];
      }
    }
    assert items[..|items|] == items;
  }

  method CollectReferencedDigests(manifest: Json) returns (out: seq<string>)
    ensures out == Referenced(manifest)
    ensures out == ConfigDigest(manifest) + Digests(Elements(manifest, "layers"))
                   + Digests(Elements(manifest, "manifests"))
  {
    out := [];
    var config := manifest.Get("config");
    if config.Some? {
      var d := DigestOf(config.value);
      if d.Some? {
        out := out + [d.value];
      }
    }
    out := PushDigests(out, Elements(manifest, "layers"));
    out := PushDigests(out, Elements(manifest, "manifests"));
  }

  // ---- The object store ----

  datatype Answer<T> = Have(value: T) | Absent | Failed

  class Store {
    var objects: Objects
    ghost var history: seq<Objects>

    /** A reliable store answers every call and reports every write it made. */
    const reliable: bool

    ghost predicate Valid()
      reads this
    {
      history != [] && history[|history| - 1] == objects
    }

    method Head(path: string) returns (r: Answer<nat>)
      ensures reliable ==> !r.Failed?
      ensures r.Have? ==> At(path) in objects && r.value == |objects[At(path)]|
      ensures r.Absent? ==> At(path) !in objects
    {
      var up: bool := *;
      if !up && !reliable {
        return Failed;
      }
      return if At(path) in objects then Have(|objects[At(path)]|) else Absent;
    }

    method Get(path: string) returns (r: Answer<Bytes>)
      ensures reliable ==> !r.Failed?
      ensures r.Have? ==> At(path) in objects && r.value == objects[At(path)]
      ensures r.Absent? ==> At(path) !in objects
    {
      var up: bool := *;
      if !up && !reliable {
        return Failed;
      }
      return if At(path) in objects then Have(objects[At(path)]) else Absent;
    }

    /** A failure leaves it open whether the write took effect. */
    method Put(path: string, data: Bytes) returns (ok: bool)
      requires Valid()
      modifies this
      ensures Valid() && history == old(history) + [objects]
      ensures objects == old(objects)[At(path) := data] || (!ok && objects == old(objects))
      ensures reliable ==> ok
    {
      var written: bool := *;
      written := written || reliable;
      if written {
        objects := objects[At(path) := data];
      }
      history := history + [objects];
      var reported: bool := *;
      ok := written && (reported || reliable);
    }

    method Copy(from: string, to: string) returns (ok: bool)
      requires Valid()
      modifies this
      ensures Valid() && history == old(history) + [objects]
      ensures ok ==> At(from) in old(objects)
      ensures objects == old(objects)
              || (At(from) in old(objects) && objects == old(objects)[At(to) := old(objects)[At(from)]])
      ensures ok ==> objects == old(objects)[At(to) := old(objects)[At(from)]]
      ensures reliable && At(from) in old(objects) ==> ok
    {
      var written: bool := *;
      written := written || reliable;
      if written && At(from) in objects {
        objects := objects[At(to) := objects[At(from)]];
      } else {
        written := false;
      }
      history := history + [objects];
      var reported: bool := *;
      ok := written && (reported || reliable);
    }
  }

  // ---- What stays and what is added ----

  /** Everything stored before is still there, except possibly the given links. */
  ghost predicate Kept(m0: Objects, m: Objects, links: set<Place>) {
    forall k :: k in m0 && k !in links ==> k in m && m[k] == m0[k]
  }

  ghost predicate Content(key: Place) {
    exists r: Repo, d: string :: Named(r) && (key == BlobKey(r, d) || key == ManifestKey(r, d))
  }

  /** No link in the set is a key of a blob or manifest. */
  ghost predicate AreLinks(links: set<Place>) {
    forall k :: k in links ==> !Content(k)
  }

  lemma TagIsNoContent(r: Repo, tag: string)
    requires Named(r)
    ensures !Content(TagKey(r, tag))
  {
    forall q: Repo, d: string | Named(q)
      ensures TagKey(r, tag) != BlobKey(q, d) && TagKey(r, tag) != ManifestKey(q, d)
    {
      KindsAreDisjoint(q, d, r, tag);
    }
  }

  /**
   * One promotion: both stores as it found them, where the destination's history
   * stood, the links it may rewrite, and the two repositories.
   */
  datatype Run = Run(m0: Objects, start: nat, links: set<Place>, origin: Objects, source: Repo, dest: Repo)

  ghost predicate Sane(x: Run) {
    Named(x.source) && Named(x.dest) && AreLinks(x.links)
  }

  /** The same blob, or the same manifest, in the two repositories. */
  ghost predicate Twin(x: Run, a: Place, b: Place) {
    exists d: string :: (a == BlobKey(x.source, d) && b == BlobKey(x.dest, d))
        || (a == ManifestKey(x.source, d) && b == ManifestKey(x.dest, d))
  }

  /** `k` holds the bytes its twin had in the source. */
  ghost predicate Mirrored(x: Run, m: Objects, k: Place)
    requires k in m
  {
    exists a :: a in x.origin && Twin(x, a, k) && m[k] == x.origin[a]
  }

  /** Nothing old is lost or changed but the links, and everything new mirrors the source. */
  ghost predicate Safe(x: Run, m: Objects) {
    && Kept(x.m0, m, x.links)
    && forall k :: k in m && k !in x.m0 && k !in x.links ==> Mirrored(x, m, k)
  }

  lemma TwinKeys(x: Run, d: string)
    ensures Twin(x, BlobKey(x.source, d), BlobKey(x.dest, d))
            && Twin(x, ManifestKey(x.source, d), ManifestKey(x.dest, d))
  {
  }

  lemma TwinIsContent(x: Run, a: Place, b: Place)
    requires Sane(x) && Twin(x, a, b)
    ensures Content(a) && Content(b)
  {
  }

  /** In a shared store the source objects stay what they were. */
  lemma SourceStays(x: Run, m: Objects, a: Place, b: Place)
    requires Sane(x) && Safe(x, m) && x.origin == x.m0 && Twin(x, a, b) && a in m && b !in m
    ensures a in x.origin && m[a] == x.origin[a]
  {
    TwinIsContent(x, a, b);
    if a !in x.m0 {
      assert Mirrored(x, m, a);
      var o :| o in x.origin && Twin(x, o, a) && m[a] == x.origin[o];
      TwinOfATwin(x, o, a, b);
    }
  }

  lemma TwinOfATwin(x: Run, o: Place, a: Place, b: Place)
    requires Sane(x) && Twin(x, o, a) && Twin(x, a, b)
    ensures a == b
  {
    var d :| (o == BlobKey(x.source, d) && a == BlobKey(x.dest, d))
        || (o == ManifestKey(x.source, d) && a == ManifestKey(x.dest, d));
    var e :| (a == BlobKey(x.source, e) && b == BlobKey(x.dest, e))
        || (a == ManifestKey(x.source, e) && b == ManifestKey(x.dest, e));
    SameKindKeys(x.source, e, x.dest, d);
    KindsAreDisjoint(x.source, e, x.dest, d);
    KindsAreDisjoint(x.dest, d, x.source, e);
  }

  lemma StillMirrored(x: Run, m: Objects, n: Objects, k: Place)
    requires k in m && Mirrored(x, m, k) && k in n && n[k] == m[k]
    ensures Mirrored(x, n, k)
  {
    var o :| o in x.origin && Twin(x, o, k) && m[k] == x.origin[o];
    assert n[k] == x.origin[o];
  }

  lemma MirroringIsSafe(x: Run, m: Objects, a: Place, b: Place)
    requires Sane(x) && Safe(x, m) && Twin(x, a, b) && a in x.origin && b !in m
    ensures Safe(x, m[b := x.origin[a]])
  {
    var n := m[b := x.origin[a]];
    forall k | k in n && k !in x.m0 && k !in x.links
      ensures Mirrored(x, n, k)
    {
      if k != b {
        StillMirrored(x, m, n, k);
      }
    }
  }

  lemma WritingALinkIsSafe(x: Run, m: Objects, key: Place, data: Bytes)
    requires Safe(x, m) && key in x.links
    ensures Safe(x, m[key := data])
  {
    var n := m[key := data];
    forall k | k in n && k !in x.m0 && k !in x.links
      ensures Mirrored(x, n, k)
    {
      StillMirrored(x, m, n, k);
    }
  }

  /** No link but the allowed ones appears or changes. */
  lemma SafeLeavesOtherTags(x: Run, m: Objects, r: Repo, tag: string)
    requires Sane(x) && Safe(x, m) && Named(r) && TagKey(r, tag) !in x.links
    ensures TagUntouched(x.m0, m, TagKey(r, tag))
  {
    TagIsNoContent(r, tag);
    var key := TagKey(r, tag);
    if key in m && key !in x.m0 {
      assert Mirrored(x, m, key);
      var o :| o in x.origin && Twin(x, o, key) && m[key] == x.origin[o];
      TwinIsContent(x, o, key);
    }
  }

  ghost predicate TagUntouched(m0: Objects, m: Objects, key: Place) {
    (key in m <==> key in m0) && (key in m ==> m[key] == m0[key])
  }

  /** The manifest under a digest is the one found there, or a copy of the source's. */
  lemma ManifestMirrors(x: Run, m: Objects, digest: string)
    requires Sane(x) && Safe(x, m) && ManifestKey(x.dest, digest) in m
    ensures ManifestKey(x.dest, digest) in x.m0 ==> m[ManifestKey(x.dest, digest)] == x.m0[ManifestKey(x.dest, digest)]
    ensures ManifestKey(x.dest, digest) !in x.m0 ==>
              && ManifestKey(x.source, digest) in x.origin
              && m[ManifestKey(x.dest, digest)] == x.origin[ManifestKey(x.source, digest)]
  {
    var key := ManifestKey(x.dest, digest);
    assert Content(key);
    if key !in x.m0 {
      assert Mirrored(x, m, key);
      var o :| o in x.origin && Twin(x, o, key) && m[key] == x.origin[o];
      var d :| (o == BlobKey(x.source, d) && key == BlobKey(x.dest, d))
          || (o == ManifestKey(x.source, d) && key == ManifestKey(x.dest, d));
      KindsAreDisjoint(x.dest, d, x.dest, digest);
      SameKindKeys(x.dest, d, x.dest, digest);
      SameKindKeys(x.source, d, x.source, digest);
    }
  }

  ghost predicate HasDigest(m: Objects, r: Repo, d: string) {
    BlobKey(r, d) in m || ManifestKey(r, d) in m
  }

  lemma KeptHasDigest(m: Objects, n: Objects, links: set<Place>, r: Repo, d: string)
    requires Kept(m, n, links) && AreLinks(links) && Named(r) && HasDigest(m, r, d)
    ensures HasDigest(n, r, d)
  {
    assert Content(BlobKey(r, d)) && Content(ManifestKey(r, d));
  }

  ghost predicate AllHave(m: Objects, r: Repo, refs: seq<string>) {
    forall i :: 0 <= i < |refs| ==> HasDigest(m, r, refs[i])
  }

  lemma KeptAllHave(m: Objects, n: Objects, links: set<Place>, r: Repo, refs: seq<string>)
    requires Kept(m, n, links) && AreLinks(links) && Named(r) && AllHave(m, r, refs)
    ensures AllHave(n, r, refs)
  {
    forall i | 0 <= i < |refs|
      ensures HasDigest(n, r, refs[i])
    {
      KeptHasDigest(m, n, links, r, refs[i]);
    }
  }

  // ---- Closed tags ----

  /** The manifest is there and so is everything it refers to directly. */
  ghost predicate Complete(c: Codec, m: Objects, r: Repo, digest: string) {
    && ManifestKey(r, digest) in m
    && c.parse(m[ManifestKey(r, digest)]).Some?
    && forall d :: d in Referenced(c.parse(m[ManifestKey(r, digest)]).value) ==> HasDigest(m, r, d)
  }

  ghost predicate Closed(c: Codec, m: Objects, r: Repo, tag: string) {
    TagKey(r, tag) in m ==> Complete(c, m, r, Trim(c.text(m[TagKey(r, tag)])))
  }

  lemma KeptComplete(c: Codec, m0: Objects, m: Objects, links: set<Place>, r: Repo, digest: string)
    requires Kept(m0, m, links) && AreLinks(links) && Named(r) && Complete(c, m0, r, digest)
    ensures Complete(c, m, r, digest)
  {
    assert Content(ManifestKey(r, digest));
    forall d | d in Referenced(c.parse(m0[ManifestKey(r, digest)]).value)
      ensures HasDigest(m, r, d)
    {
      KeptHasDigest(m0, m, links, r, d);
    }
  }

  /** Every other tag that was closed stays closed. */
  lemma OtherTagsStayClosed(c: Codec, x: Run, m: Objects, r: Repo, tag: string)
    requires Sane(x) && Safe(x, m) && Named(r)
    requires TagKey(r, tag) !in x.links && Closed(c, x.m0, r, tag)
    ensures Closed(c, m, r, tag)
  {
    SafeLeavesOtherTags(x, m, r, tag);
    if TagKey(r, tag) in m {
      KeptComplete(c, x.m0, m, x.links, r, Trim(c.text(x.m0[TagKey(r, tag)])));
    }
  }

  /** The destination tag names the promoted digest, whose manifest and direct references are stored. */
  ghost predicate Promoted(c: Codec, m: Objects, r: Repo, tag: string, plan: Plan) {
    && TagKey(r, tag) in m && m[TagKey(r, tag)] == c.encode(plan.digest)
    && ManifestKey(r, plan.digest) in m
    && AllHave(m, r, plan.refs)
  }

  /**
   * Once written, the destination tag is closed, provided the digest has no blanks
   * around it and a manifest already stored under it was the same one.
   */
  lemma PromotedIsClosed(c: Codec, x: Run, m: Objects, tag: string, plan: Plan)
    requires Sane(x) && Safe(x, m) && Promoted(c, m, x.dest, tag, plan)
    requires ReadsBack(c, plan.digest) && Trim(plan.digest) == plan.digest
    requires Planned(c, x.origin, x.source, plan)
    requires ManifestKey(x.dest, plan.digest) in x.m0 ==> x.m0[ManifestKey(x.dest, plan.digest)] == plan.manifest
    ensures Closed(c, m, x.dest, tag)
  {
    ManifestMirrors(x, m, plan.digest);
    forall d | d in plan.refs
      ensures HasDigest(m, x.dest, d)
    {
      var i :| 0 <= i < |plan.refs| && plan.refs[i] == d;
    }
  }

  // ---- Copying one object ----

  /** The only two states a copy can leave behind. */
  ghost predicate CopiedOrNot(before: Objects, after: Objects, source: Objects, from: Place, to: Place) {
    after == before || (to !in before && from in source && after == before[to := source[from]])
  }

  method CopyObject(src: Store, dst: Store, from: string, to: string) returns (r: Result<nat, Error>)
    requires dst.Valid()
    modifies dst
    ensures dst.Valid() && old(dst.history) <= dst.history
    ensures forall i :: |old(dst.history)| <= i < |dst.history| ==>
              CopiedOrNot(old(dst.objects), dst.history[i], old(src.objects), At(from), At(to))
    ensures CopiedOrNot(old(dst.objects), dst.objects, old(src.objects), At(from), At(to))
    ensures r.Ok? ==> At(to) in dst.objects && r.value == |dst.objects[At(to)]|
    ensures src.reliable && dst.reliable && At(from) in old(src.objects) ==> r.Ok?
    ensures src.reliable && dst.reliable && At(from) !in old(src.objects) && At(to) !in old(dst.objects) ==>
              r == Err(if src == dst && from == to then Storage else ManifestUnknown)
  {
    var sameStore := src == dst;
    if sameStore && from == to {
      var meta := src.Head(from);
      return if meta.Have? then Ok(meta.value) else Err(Storage);
    }
    var there := dst.Head(to);
    if there.Failed? {
      return Err(Storage);
    }
    if there.Have? {
      var meta := dst.Head(to);
      return if meta.Have? then Ok(meta.value) else Err(Storage);
    }
    if sameStore {
      var copied := src.Copy(from, to);
      if copied {
        var meta := dst.Head(to);
        return if meta.Have? then Ok(meta.value) else Err(Storage);
      }
    }
    var bytes := src.Get(from);
    if !bytes.Have? {
      return Err(if bytes.Absent? then ManifestUnknown else Storage);
    }
    var n := |bytes.value|;
    var ok := dst.Put(to, bytes.value);
    if !ok {
      return Err(Storage);
    }
    return Ok(n);
  }

  // ---- Promotion ----

  /** What is being promoted. */
  datatype Plan = Plan(digest: string, manifest: Bytes, refs: seq<string>)

  datatype Request = Request(source: ImageRef, dest: ImageRef, includeSignatures: bool, dryRun: bool)

  datatype Outcome = Outcome(digest: string, bytesCopied: nat, blobCount: nat, signaturesCopied: nat, dryRun: bool)

  /** The digest a reference names: itself, or the trimmed text of the tag's link. */
  ghost function DigestNamed(c: Codec, m: Objects, r: ImageRef): Option<string> {
    if IsDigest(r.reference) then Some(r.reference)
    else if TagKey(r.repo, r.reference) in m then Some(Trim(c.text(m[TagKey(r.repo, r.reference)])))
    else None
  }

  method ResolveDigest(c: Codec, store: Store, r: ImageRef) returns (res: Result<(string, Bytes), Error>)
    ensures res.Ok? ==> ManifestKey(r.repo, res.value.0) in store.objects
                        && res.value.1 == store.objects[ManifestKey(r.repo, res.value.0)]
    ensures res.Ok? ==> if IsDigest(r.reference) then res.value.0 == r.reference
                        else
                          && TagKey(r.repo, r.reference) in store.objects
                          && res.value.0 == Trim(c.text(store.objects[TagKey(r.repo, r.reference)]))
    ensures res.Err? ==> res.error == ManifestUnknown || (res.error == TagUnknown && !IsDigest(r.reference))
    ensures res.Ok? ==> DigestNamed(c, store.objects, r) == Some(res.value.0)
    ensures store.reliable ==>
            var d := DigestNamed(c, store.objects, r);
            if d.None? then res == Err(TagUnknown)
            else if ManifestKey(r.repo, d.value) !in store.objects then res == Err(ManifestUnknown)
            else res.Ok?
  {
    var digest := r.reference;
    if !IsDigest(r.reference) {
      var link := store.Get(TagPath(r.repo, r.reference));
      if !link.Have? {
        return Err(TagUnknown);
      }
      digest := Trim(c.text(link.value));
    }
    var manifest := store.Get(ManifestPath(r.repo, digest));
    if !manifest.Have? {
      return Err(ManifestUnknown);
    }
    return Ok((digest, manifest.value));
  }

  function SigTag(digest: string): string {
    "sha256-" + Hex(digest) + ".sig"
  }

  /** Two tags with the same link: they differ in empty segments at most. */
  ghost predicate SameTag(a: string, b: string) {
    Location(a) == Location(b)
  }

  ghost predicate SafeSince(x: Run, history: seq<Objects>) {
    forall i :: x.start <= i < |history| ==> Safe(x, history[i])
  }

  /** The stores in the middle of a promotion. */
  ghost predicate Running(x: Run, src: Store, dst: Store)
    reads src, dst
  {
    && Sane(x) && dst.Valid()
    && x.start <= |dst.history| && SafeSince(x, dst.history) && Safe(x, dst.objects)
    && (if src == dst then x.origin == x.m0 else x.origin == src.objects)
  }

  /** Nothing is lost or changed, and only blobs and manifests are added. */
  ghost predicate AddsContent(m: Objects, n: Objects) {
    Kept(m, n, {}) && forall k :: k in n && k !in m ==> Content(k)
  }

  lemma AddsContentTwice(a: Objects, b: Objects, c: Objects)
    requires AddsContent(a, b) && AddsContent(b, c)
    ensures AddsContent(a, c)
  {
  }

  /** What the promotion reads from the source is what it found there. */
  lemma SourceAsFound(x: Run, m: Objects, d: string)
    requires Sane(x) && (m == x.origin || (Safe(x, m) && x.origin == x.m0))
    ensures BlobKey(x.source, d) in m <==> BlobKey(x.source, d) in x.origin
    ensures ManifestKey(x.source, d) in m <==> ManifestKey(x.source, d) in x.origin
    ensures ManifestKey(x.source, d) in m ==> m[ManifestKey(x.source, d)] == x.origin[ManifestKey(x.source, d)]
  {
    if m != x.origin {
      TwinKeys(x, d);
      FoundBefore(x, m, BlobKey(x.source, d), BlobKey(x.dest, d));
      FoundBefore(x, m, ManifestKey(x.source, d), ManifestKey(x.dest, d));
    }
  }

  lemma FoundBefore(x: Run, m: Objects, a: Place, b: Place)
    requires Sane(x) && Safe(x, m) && x.origin == x.m0 && Twin(x, a, b)
    ensures a in m <==> a in x.origin
    ensures a in m ==> m[a] == x.origin[a]
  {
    TwinIsContent(x, a, b);
    if a in m && a !in x.m0 {
      assert Mirrored(x, m, a);
      var o :| o in x.origin && Twin(x, o, a) && m[a] == x.origin[o];
      TwinOfATwin(x, o, a, b);
      TwinOfItself(x, o, a);
    }
  }

  lemma TwinOfItself(x: Run, o: Place, a: Place)
    requires Sane(x) && Twin(x, o, a) && Twin(x, a, a)
    ensures o == a
  {
    var d :| (o == BlobKey(x.source, d) && a == BlobKey(x.dest, d))
        || (o == ManifestKey(x.source, d) && a == ManifestKey(x.dest, d));
    var e :| (a == BlobKey(x.source, e) && a == BlobKey(x.dest, e))
        || (a == ManifestKey(x.source, e) && a == ManifestKey(x.dest, e));
    SameKindKeys(x.source, e, x.dest, d);
    SameKindKeys(x.source, e, x.dest, e);
    SameKindKeys(x.source, d, x.source, e);
    SameKindKeys(x.dest, d, x.dest, e);
    KindsAreDisjoint(x.source, e, x.dest, d);
    KindsAreDisjoint(x.dest, d, x.source, e);
  }

  /** One copy keeps every state safe and loses nothing. */
  lemma CopyIsSafe(x: Run, before: Objects, after: Objects, source: Objects, from: Place, to: Place)
    requires Sane(x) && Safe(x, before) && Twin(x, from, to)
    requires source == x.origin || (source == before && x.origin == x.m0)
    requires CopiedOrNot(before, after, source, from, to)
    ensures Safe(x, after) && AddsContent(before, after)
  {
    TwinIsContent(x, from, to);
    if after != before {
      if source != x.origin {
        SourceStays(x, before, from, to);
      }
      MirroringIsSafe(x, before, from, to);
    }
  }

  lemma CopyHistoryIsSafe(x: Run, before: Objects, was: seq<Objects>, history: seq<Objects>, source: Objects,
                          from: Place, to: Place)
    requires Sane(x) && Safe(x, before) && Twin(x, from, to) && SafeSince(x, was) && was <= history
    requires source == x.origin || (source == before && x.origin == x.m0)
    requires forall i :: |was| <= i < |history| ==> CopiedOrNot(before, history[i], source, from, to)
    ensures SafeSince(x, history)
  {
    forall i | x.start <= i < |history|
      ensures Safe(x, history[i])
    {
      if i < |was| {
        assert history[i] == was[i];
      } else {
        CopyIsSafe(x, before, history[i], source, from, to);
      }
    }
  }

  /** The bytes stored under a list of keys. */
  ghost function Total(m: Objects, keys: seq<Place>): nat
    requires forall i :: 0 <= i < |keys| ==> keys[i] in m
  {
    if keys == [] then 0 else Total(m, keys[..|keys| - 1]) + |m[keys[|keys| - 1]]|
  }

  ghost predicate Stored(m: Objects, keys: seq<Place>) {
    forall i :: 0 <= i < |keys| ==> keys[i] in m && Content(keys[i])
  }

  lemma {:induction false} KeptTotal(m: Objects, n: Objects, links: set<Place>, keys: seq<Place>)
    requires Kept(m, n, links) && AreLinks(links) && Stored(m, keys)
    ensures Stored(n, keys) && Total(n, keys) == Total(m, keys)
  {
    if keys != [] {
      KeptTotal(m, n, links, keys[..|keys| - 1]);
      assert Content(keys[|keys| - 1]);
    }
  }

  lemma TotalWithOneMore(m: Objects, keys: seq<Place>, key: Place)
    requires Stored(m, keys) && key in m && Content(key)
    ensures Stored(m, keys + [key]) && Total(m, keys + [key]) == Total(m, keys) + |m[key]|
  {
    assert (keys + [key])[..|keys|] == keys;
  }

  /** A safe copy of a blob or manifest, with the accounting of what was copied so far. */
  method CopyContent(ghost x: Run, ghost copied: seq<Place>, src: Store, dst: Store, from: string, to: string,
                     ghost a: Place, ghost b: Place) returns (r: Result<nat, Error>)
    requires Running(x, src, dst) && a == At(from) && b == At(to) && Twin(x, a, b) && Stored(dst.objects, copied)
    modifies dst
    ensures Running(x, src, dst) && old(dst.history) <= dst.history
    ensures AddsContent(old(dst.objects), dst.objects)
    ensures Stored(dst.objects, copied) && Total(dst.objects, copied) == Total(old(dst.objects), copied)
    ensures r.Ok? ==> b in dst.objects && Stored(dst.objects, copied + [b])
                      && Total(dst.objects, copied + [b]) == Total(old(dst.objects), copied) + r.value
    ensures src.reliable && dst.reliable && a in old(src.objects) ==> r.Ok?
  {
    ghost var before, was, source := dst.objects, dst.history, src.objects;
    r := CopyObject(src, dst, from, to);
    CopyIsSafe(x, before, dst.objects, source, a, b);
    CopyHistoryIsSafe(x, before, was, dst.history, source, a, b);
    KeptTotal(before, dst.objects, {}, copied);
    TwinIsContent(x, a, b);
    if r.Ok? {
      TotalWithOneMore(dst.objects, copied, b);
    }
  }

  /** Where a reference ends up: under its blob if the source has that, else as a child manifest. */
  ghost function DestKey(x: Run, d: string): Place {
    if BlobKey(x.source, d) in x.origin then BlobKey(x.dest, d) else ManifestKey(x.dest, d)
  }

  ghost function DestKeys(x: Run, refs: seq<string>): (keys: seq<Place>)
    ensures |keys| == |refs| && forall i :: 0 <= i < |refs| ==> keys[i] == DestKey(x, refs[i])
  {
    seq(|refs|, i requires 0 <= i < |refs| => DestKey(x, refs[i]))
  }

  /** The source as a promotion finds it at any time. */
  lemma RunningSource(x: Run, src: Store, dst: Store, d: string)
    requires Running(x, src, dst)
    ensures BlobKey(x.source, d) in src.objects <==> BlobKey(x.source, d) in x.origin
    ensures ManifestKey(x.source, d) in src.objects <==> ManifestKey(x.source, d) in x.origin
    ensures ManifestKey(x.source, d) in src.objects ==>
              src.objects[ManifestKey(x.source, d)] == x.origin[ManifestKey(x.source, d)]
  {
    SourceAsFound(x, src.objects, d);
  }

  /** Copies the blob or, for an index, the child manifest of one reference. */
  method CopyReference(ghost x: Run, ghost copied: seq<Place>,
                       src: Store, dst: Store, source: Repo, dest: Repo, digest: string)
    returns (r: Result<nat, Error>)
    requires Running(x, src, dst) && x.source == source && x.dest == dest
    requires Stored(dst.objects, copied)
    modifies dst
    ensures Running(x, src, dst) && old(dst.history) <= dst.history
    ensures AddsContent(old(dst.objects), dst.objects)
    ensures Stored(dst.objects, copied)
    ensures r.Ok? ==> HasDigest(x.origin, source, digest) && HasDigest(dst.objects, dest, digest)
                      && Stored(dst.objects, copied + [DestKey(x, digest)])
                      && Total(dst.objects, copied + [DestKey(x, digest)]) == Total(old(dst.objects), copied) + r.value
    ensures src.reliable && dst.reliable ==>
            if HasDigest(x.origin, source, digest) then r.Ok? else r == Err(BlobUnknown(digest))
  {
    RunningSource(x, src, dst, digest);
    TwinKeys(x, digest);
    var blob := src.Head(BlobPath(source, digest));
    if blob.Failed? {
      return Err(Storage);
    }
    if blob.Have? {
      r := CopyContent(x, copied, src, dst, BlobPath(source, digest), BlobPath(dest, digest),
          BlobKey(source, digest), BlobKey(dest, digest));
      return;
    }
    var child := src.Head(ManifestPath(source, digest));
    if child.Failed? {
      return Err(Storage);
    }
    if child.Absent? {
      return Err(BlobUnknown(digest));
    }
    r := CopyContent(x, copied, src, dst, ManifestPath(source, digest), ManifestPath(dest, digest),
        ManifestKey(source, digest), ManifestKey(dest, digest));
  }

  /** The first `i` references are stored, and the source has them. */
  ghost predicate CopiedUpTo(x: Run, before: Objects, m: Objects, refs: seq<string>, i: nat, bytes: nat)
    requires i <= |refs|
  {
    && AddsContent(before, m)
    && Stored(m, DestKeys(x, refs[..i])) && bytes == Total(m, DestKeys(x, refs[..i]))
    && AllHave(x.origin, x.source, refs[..i]) && AllHave(m, x.dest, refs[..i])
  }

  lemma OneMoreReference(x: Run, start: Objects, before: Objects, m: Objects, refs: seq<string>, i: nat, bytes: nat,
                         n: nat)
    requires Sane(x) && i < |refs| && CopiedUpTo(x, start, before, refs, i, bytes) && AddsContent(before, m)
    requires HasDigest(x.origin, x.source, refs[i]) && HasDigest(m, x.dest, refs[i])
    requires Stored(m, DestKeys(x, refs[..i]) + [DestKey(x, refs[i])])
    requires Total(m, DestKeys(x, refs[..i]) + [DestKey(x, refs[i])]) == Total(before, DestKeys(x, refs[..i])) + n
    ensures CopiedUpTo(x, start, m, refs, i + 1, bytes + n)
  {
    AddsContentTwice(start, before, m);
    KeptAllHave(before, m, {}, x.dest, refs[..i]);
    OneMoreHas(m, x.dest, refs, i);
    OneMoreHas(x.origin, x.source, refs, i);
    OneMoreKey(x, refs, i);
  }

  lemma OneMoreHas(m: Objects, r: Repo, refs: seq<string>, i: nat)
    requires i < |refs| && AllHave(m, r, refs[..i]) && HasDigest(m, r, refs[i])
    ensures AllHave(m, r, refs[..i + 1])
  {
    assert refs[..i + 1] == refs[..i] + [refs[i]];
  }

  lemma OneMoreKey(x: Run, refs: seq<string>, i: nat)
    requires i < |refs|
    ensures DestKeys(x, refs[..i + 1]) == DestKeys(x, refs[..i]) + [DestKey(x, refs[i])]
  {
  }

  /** The first reference the source has neither as a blob nor as a manifest. */
  ghost predicate FirstMissing(x: Run, refs: seq<string>, d: string) {
    exists i :: 0 <= i < |refs| && refs[i] == d && !HasDigest(x.origin, x.source, d)
      && AllHave(x.origin, x.source, refs[..i])
  }

  lemma MissingHere(x: Run, refs: seq<string>, i: nat)
    requires i < |refs| && AllHave(x.origin, x.source, refs[..i]) && !HasDigest(x.origin, x.source, refs[i])
    ensures FirstMissing(x, refs, refs[i])
  {
  }

  method CopyReferences(ghost x: Run,
                        src: Store, dst: Store, source: Repo, dest: Repo, refs: seq<string>)
    returns (r: Result<nat, Error>)
    requires Running(x, src, dst) && x.source == source && x.dest == dest
    modifies dst
    ensures Running(x, src, dst) && old(dst.history) <= dst.history
    ensures AddsContent(old(dst.objects), dst.objects)
    ensures r.Ok? ==> Arrived(x, dst.objects, refs, DestKeys(x, refs), r.value)
    ensures src.reliable && dst.reliable && r.Err? ==> r.error.BlobUnknown? && FirstMissing(x, refs, r.error.digest)
  {
    var bytes := 0;
    ghost var start := dst.objects;
    for i := 0 to |refs|
      invariant Running(x, src, dst) && old(dst.history) <= dst.history
      invariant CopiedUpTo(x, start, dst.objects, refs, i, bytes)
    {
      ghost var before, was := dst.objects, dst.history;
      var n := CopyReference(x, DestKeys(x, refs[..i]), src, dst, source, dest, refs[i]);
      AddsContentTwice(start, before, dst.objects);
      HistoriesExtend(old(dst.history), was, dst.history);
      if n.Err? {
        if !HasDigest(x.origin, source, refs[i]) {
          MissingHere(x, refs, i);
        }
        return Err(n.error);
      }
      OneMoreReference(x, start, before, dst.objects, refs, i, bytes, n.value);
      bytes := bytes + n.value;
    }
    AllCopied(x, start, dst.objects, refs, bytes);
    return Ok(bytes);
  }

  lemma AllCopied(x: Run, start: Objects, m: Objects, refs: seq<string>, bytes: nat)
    requires CopiedUpTo(x, start, m, refs, |refs|, bytes)
    ensures AddsContent(start, m) && Arrived(x, m, refs, DestKeys(x, refs), bytes)
  {
    assert refs[..|refs|] == refs;
  }

  /** The destination blobs of those references whose blob the source has. */
  ghost function PresentBlobs(x: Run, refs: seq<string>): seq<Place> {
    if refs == [] then [] else PresentBlobs(x, refs[..|refs| - 1]) + PresentBlob(x, refs[|refs| - 1])
  }

  ghost function PresentBlob(x: Run, d: string): seq<Place> {
    if BlobKey(x.source, d) in x.origin then [BlobKey(x.dest, d)] else []
  }

  lemma {:induction false} PresentBlobsExactly(x: Run, refs: seq<string>, key: Place)
    ensures key in PresentBlobs(x, refs) <==>
            exists d :: d in refs && BlobKey(x.source, d) in x.origin && key == BlobKey(x.dest, d)
  {
    if refs != [] {
      var front, last := refs[..|refs| - 1], refs[|refs| - 1];
      PresentBlobsExactly(x, front, key);
      assert forall d :: d in refs <==> d in front || d == last;
    }
  }

  /** The blobs a signature manifest refers to; missing ones are skipped. */
  method CopySignatureBlobs(ghost x: Run, ghost sofar: seq<Place>,
                            src: Store, dst: Store, source: Repo, dest: Repo, refs: seq<string>)
    returns (r: Result<nat, Error>)
    requires Running(x, src, dst) && x.source == source && x.dest == dest
    requires Stored(dst.objects, sofar)
    modifies dst
    ensures Running(x, src, dst) && old(dst.history) <= dst.history
    ensures AddsContent(old(dst.objects), dst.objects)
    ensures r.Ok? ==> Stored(dst.objects, sofar + PresentBlobs(x, refs))
                      && Total(dst.objects, sofar + PresentBlobs(x, refs)) == Total(old(dst.objects), sofar) + r.value
    ensures src.reliable && dst.reliable ==> r.Ok?
  {
    var bytes := 0;
    ghost var copied := sofar;
    for i := 0 to |refs|
      invariant Running(x, src, dst) && old(dst.history) <= dst.history
      invariant AddsContent(old(dst.objects), dst.objects)
      invariant copied == sofar + PresentBlobs(x, refs[..i]) && Stored(dst.objects, copied)
      invariant Total(dst.objects, copied) == Total(old(dst.objects), sofar) + bytes
    {
      ghost var before, was := dst.objects, dst.history;
      var n := CopyPresentBlob(x, copied, src, dst, source, dest, refs[i]);
      AddsContentTwice(old(dst.objects), before, dst.objects);
      HistoriesExtend(old(dst.history), was, dst.history);
      if n.Err? {
        return Err(n.error);
      }
      bytes := bytes + n.value;
      PresentBlobsMore(x, sofar, refs, i);
      copied := copied + PresentBlob(x, refs[i]);
    }
    assert refs[..|refs|] == refs;
    return Ok(bytes);
  }

  /** One blob of the signature, if the source has it. */
  method CopyPresentBlob(ghost x: Run, ghost copied: seq<Place>, src: Store, dst: Store, source: Repo, dest: Repo,
                         digest: string)
    returns (r: Result<nat, Error>)
    requires Running(x, src, dst) && x.source == source && x.dest == dest && Stored(dst.objects, copied)
    modifies dst
    ensures Running(x, src, dst) && old(dst.history) <= dst.history
    ensures AddsContent(old(dst.objects), dst.objects)
    ensures r.Ok? ==>
            var more := copied + PresentBlob(x, digest);
            Stored(dst.objects, more) && Total(dst.objects, more) == Total(old(dst.objects), copied) + r.value
    ensures src.reliable && dst.reliable ==> r.Ok?
  {
    RunningSource(x, src, dst, digest);
    assert copied + [] == copied;
    var there := src.Head(BlobPath(source, digest));
    if there.Failed? {
      return Err(Storage);
    }
    if there.Absent? {
      return Ok(0);
    }
    TwinKeys(x, digest);
    r := CopyContent(x, copied, src, dst, BlobPath(source, digest), BlobPath(dest, digest), BlobKey(source, digest),
        BlobKey(dest, digest));
  }

  lemma PresentBlobsMore(x: Run, sofar: seq<Place>, refs: seq<string>, i: nat)
    requires i < |refs|
    ensures sofar + PresentBlobs(x, refs[..i + 1]) == sofar + PresentBlobs(x, refs[..i]) + PresentBlob(x, refs[i])
  {
    assert refs[..i + 1][..i] == refs[..i];
    Rejoined(sofar, PresentBlobs(x, refs[..i]), PresentBlob(x, refs[i]));
  }

  lemma Rejoined(a: seq<Place>, b: seq<Place>, c: seq<Place>)
    ensures a + (b + c) == a + b + c
  {
  }

  lemma Appended(a: seq<Place>, b: seq<Place>, key: Place)
    ensures a + (b + [key]) == a + b + [key]
  {
  }

  /** The digest's signature tag names a stored manifest. */
  ghost predicate Signed(c: Codec, m: Objects, r: Repo, digest: string, sig: string) {
    TagKey(r, SigTag(digest)) in m && m[TagKey(r, SigTag(digest))] == c.encode(sig) && ManifestKey(r, sig) in m
  }

  ghost predicate HasSignature(c: Codec, m: Objects, r: Repo, digest: string) {
    exists sig: string :: Signed(c, m, r, digest, sig)
  }

  /** The manifest a repository's signature tag names, if both the tag and the manifest are there. */
  ghost function SignatureOf(c: Codec, m: Objects, r: Repo, digest: string): Option<string> {
    var link := TagKey(r, SigTag(digest));
    if link in m && ManifestKey(r, Trim(c.text(m[link]))) in m then Some(Trim(c.text(m[link]))) else None
  }

  /** What a signature manifest refers to; nothing when it is no JSON. */
  ghost function SignatureRefs(c: Codec, x: Run, sig: string): seq<string>
    requires ManifestKey(x.source, sig) in x.origin
  {
    var json := c.parse(x.origin[ManifestKey(x.source, sig)]);
    if json.Some? then Referenced(json.value) else []
  }

  /** Everything copied for the signature but its link. */
  ghost function SignatureKeys(c: Codec, x: Run, digest: string): seq<Place> {
    var sig := SignatureOf(c, x.origin, x.source, digest);
    if sig.None? then []
    else PresentBlobs(x, SignatureRefs(c, x, sig.value)) + [ManifestKey(x.dest, sig.value)]
  }

  /** Copies the signature manifest, its blobs and its link, when the source has one. */
  method CopySignature(c: Codec, ghost x: Run, ghost sofar: seq<Place>,
                       src: Store, dst: Store, source: Repo, dest: Repo, digest: string)
    returns (r: Result<(nat, nat), Error>)
    requires Running(x, src, dst) && x.source == source && x.dest == dest && TagKey(dest, SigTag(digest)) in x.links
    requires Stored(dst.objects, sofar) && TagUntouched(x.origin, src.objects, TagKey(source, SigTag(digest)))
    modifies dst
    ensures Running(x, src, dst) && old(dst.history) <= dst.history
    ensures Kept(old(dst.objects), dst.objects, x.links)
    ensures r.Ok? ==> Stored(dst.objects, sofar + SignatureKeys(c, x, digest))
                      && Total(dst.objects, sofar + SignatureKeys(c, x, digest)) ==
                         Total(old(dst.objects), sofar) + r.value.0
    ensures r.Ok? ==>
            var sig := SignatureOf(c, x.origin, source, digest);
            if sig.None? then r.value.1 == 0 else r.value.1 == 1 && Signed(c, dst.objects, dest, digest, sig.value)
    ensures src.reliable && dst.reliable ==> r.Ok?
  {
    var sigLink := TagPath(source, SigTag(digest));
    assert sofar + [] == sofar;
    var there := src.Head(sigLink);
    if there.Failed? {
      return Err(Storage);
    }
    if there.Absent? {
      return Ok((0, 0));
    }
    var link := src.Get(sigLink);
    if !link.Have? {
      return Err(if link.Absent? then ManifestUnknown else Storage);
    }
    var sigDigest := Trim(c.text(link.value));
    RunningSource(x, src, dst, sigDigest);
    var has := src.Head(ManifestPath(source, sigDigest));
    if has.Failed? {
      return Err(Storage);
    }
    if has.Absent? {
      return Ok((0, 0));
    }
    var sig := src.Get(ManifestPath(source, sigDigest));
    if !sig.Have? {
      return Err(if sig.Absent? then ManifestUnknown else Storage);
    }
    var n := CopyAndLink(c, x, sofar, src, dst, source, dest, digest, sigDigest, sig.value);
    return if n.Err? then Err(n.error) else Ok((n.value, 1));
  }

  /** The content of the signature, then its link. */
  method CopyAndLink(c: Codec, ghost x: Run, ghost sofar: seq<Place>, src: Store, dst: Store, source: Repo, dest: Repo,
                     digest: string, sigDigest: string, sig: Bytes)
    returns (r: Result<nat, Error>)
    requires Running(x, src, dst) && x.source == source && x.dest == dest && TagKey(dest, SigTag(digest)) in x.links
    requires Stored(dst.objects, sofar)
    requires ManifestKey(source, sigDigest) in x.origin && x.origin[ManifestKey(source, sigDigest)] == sig
    modifies dst
    ensures Running(x, src, dst) && old(dst.history) <= dst.history
    ensures Kept(old(dst.objects), dst.objects, x.links)
    ensures r.Ok? ==>
            var keys := sofar + (PresentBlobs(x, SignatureRefs(c, x, sigDigest)) + [ManifestKey(dest, sigDigest)]);
            Stored(dst.objects, keys) && Total(dst.objects, keys) == Total(old(dst.objects), sofar) + r.value
    ensures r.Ok? ==> Signed(c, dst.objects, dest, digest, sigDigest)
    ensures src.reliable && dst.reliable ==> r.Ok?
  {
    r := CopySignatureContent(c, x, sofar, src, dst, source, dest, sigDigest, sig);
    if r.Err? {
      return;
    }
    ghost var before, was := dst.objects, dst.history;
    ghost var blobs := PresentBlobs(x, SignatureRefs(c, x, sigDigest));
    ghost var keys := sofar + blobs + [ManifestKey(dest, sigDigest)];
    Appended(sofar, blobs, ManifestKey(dest, sigDigest));
    var ok := WriteLink(x, keys, src, dst, TagPath(dest, SigTag(digest)), c.encode(sigDigest));
    HistoriesExtend(old(dst.history), was, dst.history);
    assert Content(ManifestKey(dest, sigDigest));
    if !ok {
      r := Err(Storage);
    }
  }

  /** The blobs of the signature manifest, then the manifest itself. */
  method CopySignatureContent(c: Codec, ghost x: Run, ghost sofar: seq<Place>,
                              src: Store, dst: Store, source: Repo, dest: Repo, sigDigest: string, sig: Bytes)
    returns (r: Result<nat, Error>)
    requires Running(x, src, dst) && x.source == source && x.dest == dest
    requires Stored(dst.objects, sofar)
    requires ManifestKey(source, sigDigest) in x.origin && x.origin[ManifestKey(source, sigDigest)] == sig
    modifies dst
    ensures Running(x, src, dst) && old(dst.history) <= dst.history
    ensures AddsContent(old(dst.objects), dst.objects)
    ensures r.Ok? ==>
            var keys := sofar + PresentBlobs(x, SignatureRefs(c, x, sigDigest)) + [ManifestKey(dest, sigDigest)];
            && Stored(dst.objects, keys) && Total(dst.objects, keys) == Total(old(dst.objects), sofar) + r.value
            && ManifestKey(dest, sigDigest) in dst.objects
    ensures src.reliable && dst.reliable ==> r.Ok?
  {
    var bytes, refs := 0, [];
    var json := c.parse(sig);
    if json.Some? {
      refs := CollectReferencedDigests(json.value);
    }
    assert refs == SignatureRefs(c, x, sigDigest);
    var n := CopySignatureBlobs(x, sofar, src, dst, source, dest, refs);
    if n.Err? {
      return Err(n.error);
    }
    ghost var before, was := dst.objects, dst.history;
    RunningSource(x, src, dst, sigDigest);
    TwinKeys(x, sigDigest);
    var m := CopyContent(x, sofar + PresentBlobs(x, refs), src, dst, ManifestPath(source, sigDigest),
        ManifestPath(dest, sigDigest), ManifestKey(source, sigDigest), ManifestKey(dest, sigDigest));
    AddsContentTwice(old(dst.objects), before, dst.objects);
    HistoriesExtend(old(dst.history), was, dst.history);
    if m.Err? {
      return Err(m.error);
    }
    return Ok(n.value + m.value);
  }

  method WriteLink(ghost x: Run, ghost copied: seq<Place>,
                   ghost src: Store, dst: Store, key: string, data: Bytes) returns (ok: bool)
    requires Running(x, src, dst) && At(key) in x.links
    requires Stored(dst.objects, copied)
    modifies dst
    ensures Running(x, src, dst) && old(dst.history) <= dst.history
    ensures Kept(old(dst.objects), dst.objects, x.links)
    ensures Stored(dst.objects, copied) && Total(dst.objects, copied) == Total(old(dst.objects), copied)
    ensures ok ==> At(key) in dst.objects && dst.objects[At(key)] == data
    ensures dst.reliable ==> ok
  {
    ghost var before, was := dst.objects, dst.history;
    ok := dst.Put(key, data);
    WritingALinkIsSafe(x, before, At(key), data);
    KeptTotal(before, dst.objects, x.links, copied);
    assert forall i :: x.start <= i < |was| ==> dst.history[i] == was[i];
  }

  /** Every state since the start but the last leaves the link as it was. */
  ghost predicate TouchedLast(x: Run, history: seq<Objects>, key: Place) {
    forall i :: x.start <= i < |history| - 1 ==> TagUntouched(x.m0, history[i], key)
  }

  /** All keys a promotion copies to: references, manifest and, when one is copied, the signature. */
  ghost function CopiedKeys(c: Codec, x: Run, refs: seq<string>, digest: string, signatures: nat): seq<Place> {
    if signatures > 0 then ImageKeys(x, refs, digest) + SignatureKeys(c, x, digest) else ImageKeys(x, refs, digest)
  }

  ghost function ImageKeys(x: Run, refs: seq<string>, digest: string): seq<Place> {
    DestKeys(x, refs) + [ManifestKey(x.dest, digest)]
  }

  /** The references are there on both sides, and the bytes are those stored under the copied keys. */
  ghost predicate Arrived(x: Run, m: Objects, refs: seq<string>, keys: seq<Place>, bytes: nat) {
    && AllHave(x.origin, x.source, refs) && AllHave(m, x.dest, refs)
    && Stored(m, keys) && bytes == Total(m, keys)
  }

  lemma SignatureArrives(c: Codec, x: Run, before: Objects, m: Objects, refs: seq<string>, digest: string, bytes: nat,
                         more: nat, n: nat)
    requires Sane(x) && Kept(before, m, x.links) && Arrived(x, before, refs, ImageKeys(x, refs, digest), bytes)
    requires var keys := ImageKeys(x, refs, digest) + SignatureKeys(c, x, digest);
             Stored(m, keys) && Total(m, keys) == Total(before, ImageKeys(x, refs, digest)) + more
    requires n == if SignatureOf(c, x.origin, x.source, digest).Some? then 1 else 0
    ensures Arrived(x, m, refs, CopiedKeys(c, x, refs, digest, n), bytes + more)
  {
    KeptAllHave(before, m, x.links, x.dest, refs);
    if n == 0 {
      assert ImageKeys(x, refs, digest) + [] == ImageKeys(x, refs, digest);
    }
  }

  /** How many signatures a promotion copies: one if asked to and the source has one. */
  ghost function SignatureCount(c: Codec, x: Run, req: Request, digest: string): nat {
    if req.includeSignatures && SignatureOf(c, x.origin, x.source, digest).Some? then 1 else 0
  }

  lemma HistoriesExtend(a: seq<Objects>, b: seq<Objects>, c: seq<Objects>)
    requires a <= b <= c
    ensures a <= c
  {
  }

  /** The manifest, once its references are there. */
  method CopyManifest(ghost x: Run, src: Store, dst: Store, source: Repo, dest: Repo, digest: string,
                      ghost refs: seq<string>, ghost bytes: nat)
    returns (r: Result<nat, Error>)
    requires Running(x, src, dst) && x.source == source && x.dest == dest
    requires Arrived(x, dst.objects, refs, DestKeys(x, refs), bytes)
    modifies dst
    ensures Running(x, src, dst) && old(dst.history) <= dst.history
    ensures AddsContent(old(dst.objects), dst.objects)
    ensures r.Ok? ==> Arrived(x, dst.objects, refs, ImageKeys(x, refs, digest), bytes + r.value)
    ensures src.reliable && dst.reliable && ManifestKey(source, digest) in x.origin ==> r.Ok?
  {
    RunningSource(x, src, dst, digest);
    TwinKeys(x, digest);
    r := CopyContent(x, DestKeys(x, refs), src, dst, ManifestPath(source, digest), ManifestPath(dest, digest),
        ManifestKey(source, digest), ManifestKey(dest, digest));
    KeptAllHave(old(dst.objects), dst.objects, {}, dest, refs);
  }

  /** The references, then the manifest. */
  method CopyImage(ghost x: Run, src: Store, dst: Store, source: Repo, dest: Repo, digest: string, refs: seq<string>)
    returns (r: Result<nat, Error>)
    requires Running(x, src, dst) && x.source == source && x.dest == dest
    modifies dst
    ensures Running(x, src, dst) && old(dst.history) <= dst.history
    ensures AddsContent(old(dst.objects), dst.objects)
    ensures r.Ok? ==> Arrived(x, dst.objects, refs, ImageKeys(x, refs, digest), r.value)
    ensures src.reliable && dst.reliable && r.Err? && ManifestKey(source, digest) in x.origin ==>
            r.error.BlobUnknown? && FirstMissing(x, refs, r.error.digest)
  {
    var n := CopyReferences(x, src, dst, source, dest, refs);
    if n.Err? {
      return Err(n.error);
    }
    ghost var between, was := dst.objects, dst.history;
    var m := CopyManifest(x, src, dst, source, dest, digest, refs, n.value);
    HistoriesExtend(old(dst.history), was, dst.history);
    AddsContentTwice(old(dst.objects), between, dst.objects);
    if m.Err? {
      return Err(m.error);
    }
    return Ok(n.value + m.value);
  }

  /** Copying content leaves the links of a shared store as they were found. */
  lemma LinksAsFound(x: Run, m: Objects, tag: string)
    requires Sane(x) && (m == x.origin || (x.origin == x.m0 && AddsContent(x.m0, m)))
    ensures TagUntouched(x.origin, m, TagKey(x.source, tag))
  {
    TagIsNoContent(x.source, tag);
  }

  /** What the copies leave behind: everything counted is there, and the signature's link names it. */
  ghost predicate CopiesDone(c: Codec, x: Run, m: Objects, req: Request, digest: string, refs: seq<string>,
                             bytes: nat, signatures: nat)
  {
    && signatures == SignatureCount(c, x, req, digest)
    && Arrived(x, m, refs, CopiedKeys(c, x, refs, digest, signatures), bytes)
    && (signatures > 0 ==> Signed(c, m, x.dest, digest, SignatureOf(c, x.origin, x.source, digest).value))
  }

  /** The signature, once the image is there. */
  method AddSignature(c: Codec, ghost x: Run, src: Store, dst: Store, req: Request, digest: string,
                      ghost refs: seq<string>, bytes: nat)
    returns (r: Result<(nat, nat), Error>)
    requires Running(x, src, dst) && x.source == req.source.repo && x.dest == req.dest.repo
    requires req.includeSignatures && TagKey(req.dest.repo, SigTag(digest)) in x.links
    requires AddsContent(x.m0, dst.objects) && Arrived(x, dst.objects, refs, ImageKeys(x, refs, digest), bytes)
    modifies dst
    ensures Running(x, src, dst) && old(dst.history) <= dst.history
    ensures r.Ok? ==> CopiesDone(c, x, dst.objects, req, digest, refs, r.value.0, r.value.1)
    ensures src.reliable && dst.reliable ==> r.Ok?
  {
    ghost var before := dst.objects;
    LinksAsFound(x, src.objects, SigTag(digest));
    r := CopySignature(c, x, ImageKeys(x, refs, digest), src, dst, req.source.repo, req.dest.repo, digest);
    if r.Ok? {
      SignatureArrives(c, x, before, dst.objects, refs, digest, bytes, r.value.0, r.value.1);
      r := Ok((bytes + r.value.0, r.value.1));
    }
  }

  /** References, manifest and signature; everything but the tag. */
  method CopyEverything(c: Codec, ghost x: Run, src: Store, dst: Store, req: Request, digest: string, refs: seq<string>)
    returns (r: Result<(nat, nat), Error>)
    requires Running(x, src, dst) && x.source == req.source.repo && x.dest == req.dest.repo && dst.objects == x.m0
    requires req.includeSignatures ==> TagKey(req.dest.repo, SigTag(digest)) in x.links
    modifies dst
    ensures Running(x, src, dst) && old(dst.history) <= dst.history
    ensures r.Ok? ==> CopiesDone(c, x, dst.objects, req, digest, refs, r.value.0, r.value.1)
    ensures src.reliable && dst.reliable && r.Err? && ManifestKey(x.source, digest) in x.origin ==>
            r.error.BlobUnknown? && FirstMissing(x, refs, r.error.digest)
  {
    var n := CopyImage(x, src, dst, req.source.repo, req.dest.repo, digest, refs);
    if n.Err? {
      return Err(n.error);
    }
    if !req.includeSignatures {
      return Ok((n.value, 0));
    }
    ghost var was := dst.history;
    r := AddSignature(c, x, src, dst, req, digest, refs, n.value);
    HistoriesExtend(old(dst.history), was, dst.history);
  }

  /** The links a promotion may rewrite: the destination tag and the digest's signature tag. */
  ghost function LinksOf(req: Request, digest: string): set<Place> {
    var tag := TagKey(req.dest.repo, req.dest.reference);
    if req.includeSignatures then {tag, TagKey(req.dest.repo, SigTag(digest))} else {tag}
  }

  /** Copying the signature does not write the destination tag. */
  ghost predicate TagComesLast(req: Request, digest: string) {
    !req.includeSignatures || !SameTag(req.dest.reference, SigTag(digest))
  }

  /** The promotion of a plan that found the stores in the given states. */
  ghost function RunOf(src: Objects, m0: Objects, start: nat, req: Request, digest: string): Run {
    Run(m0, start, LinksOf(req, digest), src, req.source.repo, req.dest.repo)
  }

  lemma RunIsSane(src: Objects, m0: Objects, start: nat, req: Request, digest: string)
    requires Named(req.source.repo) && Named(req.dest.repo)
    ensures Sane(RunOf(src, m0, start, req, digest))
  {
    TagIsNoContent(req.dest.repo, req.dest.reference);
    TagIsNoContent(req.dest.repo, SigTag(digest));
  }

  /** The same run, not yet allowed to write the destination tag. */
  ghost function Copying(x: Run, key: Place): Run {
    x.(links := x.links - {key})
  }

  lemma CopyingIsSafe(x: Run, key: Place, m: Objects)
    requires Safe(Copying(x, key), m)
    ensures Safe(x, m)
  {
    forall k | k in m && k !in x.m0 && k !in x.links
      ensures Mirrored(x, m, k)
    {
      assert Mirrored(Copying(x, key), m, k);
      var o :| o in x.origin && Twin(Copying(x, key), o, k) && m[k] == x.origin[o];
      assert Twin(x, o, k);
    }
  }

  /** Every state reached while copying is safe, and leaves the tag as it was. */
  lemma CopyingHistory(x: Run, r: Repo, tag: string, history: seq<Objects>)
    requires Sane(x) && Named(r) && SafeSince(Copying(x, TagKey(r, tag)), history)
    ensures SafeSince(x, history)
    ensures forall i :: x.start <= i < |history| ==> TagUntouched(x.m0, history[i], TagKey(r, tag))
  {
    forall i | x.start <= i < |history|
      ensures Safe(x, history[i]) && TagUntouched(x.m0, history[i], TagKey(r, tag))
    {
      CopyingIsSafe(x, TagKey(r, tag), history[i]);
      SafeLeavesOtherTags(Copying(x, TagKey(r, tag)), history[i], r, tag);
    }
  }

  /** Writing the tag over a complete image gives a promoted image and nothing else. */
  lemma FinalWriteIsSafe(c: Codec, x: Run, before: Objects, req: Request, plan: Plan)
    requires Sane(x) && x.dest == req.dest.repo && Safe(x, before) && TagKey(x.dest, req.dest.reference) in x.links
    requires AllHave(before, x.dest, plan.refs) && ManifestKey(x.dest, plan.digest) in before
    ensures Safe(x, before[TagKey(x.dest, req.dest.reference) := c.encode(plan.digest)])
    ensures Promoted(c, before[TagKey(x.dest, req.dest.reference) := c.encode(plan.digest)], x.dest,
            req.dest.reference, plan)
  {
    var key := TagKey(x.dest, req.dest.reference);
    var after := before[key := c.encode(plan.digest)];
    WritingALinkIsSafe(x, before, key, c.encode(plan.digest));
    TagIsNoContent(x.dest, req.dest.reference);
    KeptAllHave(before, after, {key}, x.dest, plan.refs);
  }

  /** Why the source image cannot be planned: no such tag, no such manifest, or no JSON. */
  ghost function Unreadable(c: Codec, m: Objects, r: ImageRef): Option<Error> {
    var d := DigestNamed(c, m, r);
    if d.None? then Some(TagUnknown)
    else if ManifestKey(r.repo, d.value) !in m then Some(ManifestUnknown)
    else if c.parse(m[ManifestKey(r.repo, d.value)]).None? then Some(ManifestInvalid)
    else None
  }

  /** Reads the source image; nothing is written. */
  method MakePlan(c: Codec, src: Store, source: ImageRef) returns (r: Result<Plan, Error>)
    ensures r.Ok? ==> Planned(c, src.objects, source.repo, r.value)
                      && DigestNamed(c, src.objects, source) == Some(r.value.digest)
    ensures src.reliable ==> (r.Err? <==> Unreadable(c, src.objects, source).Some?)
    ensures src.reliable && r.Err? ==> Unreadable(c, src.objects, source) == Some(r.error)
  {
    var resolved := ResolveDigest(c, src, source);
    if resolved.Err? {
      return Err(resolved.error);
    }
    var digest, bytes := resolved.value.0, resolved.value.1;
    var json := c.parse(bytes);
    if json.None? {
      return Err(ManifestInvalid);
    }
    var refs := CollectReferencedDigests(json.value);
    return Ok(Plan(digest, bytes, refs));
  }

  lemma AccountsStay(before: Objects, after: Objects, r: Repo, tag: string, copied: seq<Place>)
    requires Named(r) && Kept(before, after, {TagKey(r, tag)}) && Stored(before, copied)
    ensures Stored(after, copied) && Total(after, copied) == Total(before, copied)
  {
    TagIsNoContent(r, tag);
    KeptTotal(before, after, {TagKey(r, tag)}, copied);
  }

  lemma HistoryGrows(x: Run, was: seq<Objects>, m: Objects)
    requires SafeSince(x, was) && Safe(x, m)
    ensures SafeSince(x, was + [m])
  {
    assert forall i :: 0 <= i < |was| ==> (was + [m])[i] == was[i];
  }

  /** The two states the last write can leave behind. */
  lemma TagWritten(c: Codec, x: Run, before: Objects, after: Objects, req: Request, plan: Plan, copied: seq<Place>)
    requires Sane(x) && x.dest == req.dest.repo && Safe(x, before) && TagKey(x.dest, req.dest.reference) in x.links
    requires AllHave(before, x.dest, plan.refs) && Stored(before, copied) && ManifestKey(x.dest, plan.digest) in before
    requires after == before || after == before[TagKey(x.dest, req.dest.reference) := c.encode(plan.digest)]
    ensures Safe(x, after) && Kept(before, after, {TagKey(x.dest, req.dest.reference)})
    ensures Stored(after, copied) && Total(after, copied) == Total(before, copied)
    ensures after == before || Promoted(c, after, x.dest, req.dest.reference, plan)
    ensures after == before[TagKey(x.dest, req.dest.reference) := c.encode(plan.digest)] ==>
              Promoted(c, after, x.dest, req.dest.reference, plan)
  {
    FinalWriteIsSafe(c, x, before, req, plan);
    AccountsStay(before, after, x.dest, req.dest.reference, copied);
  }

  /** Writes the destination tag, unless the destination is named by digest. */
  method WriteTag(c: Codec, ghost x: Run, ghost copied: seq<Place>, src: Store, dst: Store, req: Request, plan: Plan)
    returns (ok: bool)
    requires Running(x, src, dst) && x.dest == req.dest.repo && TagKey(req.dest.repo, req.dest.reference) in x.links
    requires AllHave(dst.objects, req.dest.repo, plan.refs) && Stored(dst.objects, copied)
             && ManifestKey(req.dest.repo, plan.digest) in dst.objects
    modifies dst
    ensures Running(x, src, dst)
    ensures dst.history == old(dst.history) || dst.history == old(dst.history) + [dst.objects]
    ensures Stored(dst.objects, copied) && Total(dst.objects, copied) == Total(old(dst.objects), copied)
    ensures Kept(old(dst.objects), dst.objects, {TagKey(req.dest.repo, req.dest.reference)})
    ensures dst.objects == old(dst.objects) || Promoted(c, dst.objects, req.dest.repo, req.dest.reference, plan)
    ensures ok && !IsDigest(req.dest.reference) ==> Promoted(c, dst.objects, req.dest.repo, req.dest.reference, plan)
    ensures IsDigest(req.dest.reference) ==> ok && dst.objects == old(dst.objects)
    ensures dst.reliable ==> ok
  {
    ok := true;
    if !IsDigest(req.dest.reference) {
      ghost var before, was := dst.objects, dst.history;
      ok := dst.Put(TagPath(req.dest.repo, req.dest.reference), c.encode(plan.digest));
      TagWritten(c, x, before, dst.objects, req, plan, copied);
      HistoryGrows(x, was, dst.objects);
    }
  }

  /** A plan read off the source. */
  ghost predicate Planned(c: Codec, origin: Objects, source: Repo, plan: Plan) {
    && ManifestKey(source, plan.digest) in origin && plan.manifest == origin[ManifestKey(source, plan.digest)]
    && c.parse(plan.manifest).Some? && plan.refs == Referenced(c.parse(plan.manifest).value)
  }

  /** The tag is as it was, or now names the complete promoted image. */
  ghost predicate AllOrNothing(c: Codec, x: Run, m: Objects, tag: string, plan: Plan) {
    TagUntouched(x.m0, m, TagKey(x.dest, tag)) || Promoted(c, m, x.dest, tag, plan)
  }

  lemma SignatureStays(c: Codec, before: Objects, m: Objects, r: Repo, digest: string, tag: string, sig: string)
    requires Named(r) && !SameTag(tag, SigTag(digest)) && Kept(before, m, {TagKey(r, tag)})
             && Signed(c, before, r, digest, sig)
    ensures Signed(c, m, r, digest, sig)
  {
    SameKindKeys(r, tag, r, SigTag(digest));
    TagIsNoContent(r, tag);
    assert Content(ManifestKey(r, sig));
  }

  /** The destination tag is as it was, now and in every state since the start. */
  ghost predicate NotYet(x: Run, history: seq<Objects>, m: Objects, key: Place) {
    && TagUntouched(x.m0, m, key)
    && forall i :: x.start <= i < |history| ==> TagUntouched(x.m0, history[i], key)
  }

  /** Whatever one more state is, the states before it had the tag as it was. */
  lemma TagIsTheLastTouch(x: Run, was: seq<Objects>, now: seq<Objects>, m: Objects, key: Place)
    requires NotYet(x, was, m, key) && was <= now && |now| <= |was| + 1
    ensures TouchedLast(x, now, key)
  {
  }

  /**
   * What a successful promotion reports and leaves behind: it counts one signature exactly
   * when it was asked to and the source has one, and then the destination's signature tag
   * names the same manifest, unless the destination tag is that very tag; the bytes are
   * those of everything copied, blobs of the signature included.
   */
  ghost predicate Delivered(c: Codec, x: Run, m: Objects, req: Request, plan: Plan, out: Outcome) {
    && out.digest == plan.digest && out.blobCount == |plan.refs| && !out.dryRun
    && AllHave(x.origin, x.source, plan.refs)
    && out.signaturesCopied == SignatureCount(c, x, req, plan.digest)
    && Stored(m, CopiedKeys(c, x, plan.refs, plan.digest, out.signaturesCopied))
    && out.bytesCopied == Total(m, CopiedKeys(c, x, plan.refs, plan.digest, out.signaturesCopied))
    && (out.signaturesCopied > 0 && !SameTag(req.dest.reference, SigTag(plan.digest)) ==>
        Signed(c, m, x.dest, plan.digest, SignatureOf(c, x.origin, x.source, plan.digest).value))
  }

  lemma CopyingIsUntouched(x: Run, r: Repo, tag: string, history: seq<Objects>, m: Objects)
    requires Sane(x) && Named(r) && SafeSince(Copying(x, TagKey(r, tag)), history)
             && Safe(Copying(x, TagKey(r, tag)), m)
    ensures SafeSince(x, history) && Safe(x, m) && NotYet(x, history, m, TagKey(r, tag))
  {
    CopyingHistory(x, r, tag, history);
    CopyingIsSafe(x, TagKey(r, tag), m);
    SafeLeavesOtherTags(Copying(x, TagKey(r, tag)), m, r, tag);
  }

  lemma {:induction false} CopyingPresent(x: Run, key: Place, refs: seq<string>)
    ensures PresentBlobs(Copying(x, key), refs) == PresentBlobs(x, refs)
  {
    if refs != [] {
      CopyingPresent(x, key, refs[..|refs| - 1]);
    }
  }

  /** What is copied does not depend on the links that may be written. */
  lemma CopyingKeys(c: Codec, x: Run, key: Place, refs: seq<string>, digest: string, n: nat)
    ensures CopiedKeys(c, Copying(x, key), refs, digest, n) == CopiedKeys(c, x, refs, digest, n)
  {
    var sig := SignatureOf(c, x.origin, x.source, digest);
    if sig.Some? {
      CopyingPresent(x, key, SignatureRefs(c, x, sig.value));
    }
    assert DestKeys(Copying(x, key), refs) == DestKeys(x, refs);
  }

  lemma CopyingIsDone(c: Codec, x: Run, key: Place, m: Objects, req: Request, plan: Plan, bytes: nat, n: nat)
    requires CopiesDone(c, Copying(x, key), m, req, plan.digest, plan.refs, bytes, n)
    ensures CopiesDone(c, x, m, req, plan.digest, plan.refs, bytes, n)
  {
    CopyingKeys(c, x, key, plan.refs, plan.digest, n);
  }

  lemma CopyingMissing(x: Run, key: Place, refs: seq<string>, d: string)
    requires FirstMissing(Copying(x, key), refs, d)
    ensures FirstMissing(x, refs, d)
  {
  }

  /** Everything but the tag; the tag is not written unless it is the signature tag. */
  method CopyPhase(c: Codec, ghost x: Run, src: Store, dst: Store, req: Request, plan: Plan)
    returns (r: Result<(nat, nat), Error>)
    requires dst.Valid() && Named(req.source.repo) && Named(req.dest.repo)
    requires x == RunOf(src.objects, dst.objects, |dst.history|, req, plan.digest)
    modifies dst
    ensures Running(x, src, dst) && old(dst.history) <= dst.history
    ensures TagComesLast(req, plan.digest) ==>
            NotYet(x, dst.history, dst.objects, TagKey(x.dest, req.dest.reference))
    ensures r.Ok? ==> CopiesDone(c, x, dst.objects, req, plan.digest, plan.refs, r.value.0, r.value.1)
    ensures src.reliable && dst.reliable && r.Err? && ManifestKey(x.source, plan.digest) in x.origin ==>
            r.error.BlobUnknown? && FirstMissing(x, plan.refs, r.error.digest)
  {
    RunIsSane(src.objects, dst.objects, |dst.history|, req, plan.digest);
    SameKindKeys(req.dest.repo, req.dest.reference, req.dest.repo, SigTag(plan.digest));
    ghost var key := TagKey(req.dest.repo, req.dest.reference);
    ghost var y := if TagComesLast(req, plan.digest) then Copying(x, key) else x;
    r := CopyEverything(c, y, src, dst, req, plan.digest, plan.refs);
    if TagComesLast(req, plan.digest) {
      CopyingIsUntouched(x, req.dest.repo, req.dest.reference, dst.history, dst.objects);
      if r.Ok? {
        CopyingIsDone(c, x, key, dst.objects, req, plan, r.value.0, r.value.1);
      } else if r.error.BlobUnknown? && FirstMissing(y, plan.refs, r.error.digest) {
        CopyingMissing(x, key, plan.refs, r.error.digest);
      }
    }
  }

  /** Copies the planned image and writes the tag last. */
  method Execute(c: Codec, ghost x: Run, src: Store, dst: Store, req: Request, plan: Plan)
    returns (r: Result<Outcome, Error>)
    requires dst.Valid() && Named(req.source.repo) && Named(req.dest.repo)
    requires x == RunOf(src.objects, dst.objects, |dst.history|, req, plan.digest)
    modifies dst
    ensures dst.Valid() && old(dst.history) <= dst.history
    ensures Safe(x, dst.objects) && SafeSince(x, dst.history)
    ensures TagComesLast(req, plan.digest) ==>
            && TouchedLast(x, dst.history, TagKey(x.dest, req.dest.reference))
            && AllOrNothing(c, x, dst.objects, req.dest.reference, plan)
    ensures r.Ok? ==> r.value.digest == plan.digest && r.value.blobCount == |plan.refs| && !r.value.dryRun
    ensures r.Ok? ==> r.value.signaturesCopied == SignatureCount(c, x, req, plan.digest)
    ensures r.Ok? ==> AllHave(x.origin, x.source, plan.refs)
                      && Stored(dst.objects, CopiedKeys(c, x, plan.refs, plan.digest, r.value.signaturesCopied))
                      && r.value.bytesCopied ==
                         Total(dst.objects, CopiedKeys(c, x, plan.refs, plan.digest, r.value.signaturesCopied))
    ensures r.Ok? && r.value.signaturesCopied > 0 && !SameTag(req.dest.reference, SigTag(plan.digest)) ==>
              Signed(c, dst.objects, req.dest.repo, plan.digest, SignatureOf(c, x.origin, x.source, plan.digest).value)
    ensures r.Ok? && !IsDigest(req.dest.reference) ==> Promoted(c, dst.objects, req.dest.repo, req.dest.reference, plan)
    ensures src.reliable && dst.reliable && r.Err? && ManifestKey(x.source, plan.digest) in x.origin ==>
            r.error.BlobUnknown? && FirstMissing(x, plan.refs, r.error.digest)
  {
    var n := CopyPhase(c, x, src, dst, req, plan);
    if n.Err? {
      return Err(n.error);
    }
    ghost var before, was := dst.objects, dst.history;
    ghost var keys := CopiedKeys(c, x, plan.refs, plan.digest, n.value.1);
    assert keys[|plan.refs|] == ManifestKey(x.dest, plan.digest);
    var ok := WriteTag(c, x, keys, src, dst, req, plan);
    if n.value.1 > 0 && !SameTag(req.dest.reference, SigTag(plan.digest)) {
      SignatureStays(c, before, dst.objects, req.dest.repo, plan.digest, req.dest.reference,
                     SignatureOf(c, x.origin, x.source, plan.digest).value);
    }
    if TagComesLast(req, plan.digest) {
      TagIsTheLastTouch(x, was, dst.history, before, TagKey(x.dest, req.dest.reference));
    }
    if !ok {
      return Err(Storage);
    }
    return Ok(Outcome(plan.digest, n.value.0, |plan.refs|, n.value.1, false));
  }

  /**
   * The whole promotion. Nothing is written before the source image is read, nor on
   * a dry run. Otherwise every state on the way keeps all blobs, manifests and other
   * links as they were and adds only mirrors of the source; and unless the
   * signature is copied to that same tag, the destination tag changes in the last write only,
   * and then to name a complete image. On success exactly the references, the manifest and,
   * if asked for and there, the signature with its blobs were copied. With reliable stores
   * it fails exactly when the source image is unreadable or a reference is missing.
   */
  method Promote(c: Codec, src: Store, dst: Store, req: Request)
    returns (r: Result<Outcome, Error>, ghost plan: Option<Plan>, ghost x: Option<Run>)
    requires dst.Valid() && Named(req.source.repo) && Named(req.dest.repo)
    modifies dst
    ensures dst.Valid() && old(dst.history) <= dst.history
    ensures plan.None? ==> r.Err? && x.None?
    ensures plan.Some? ==> Planned(c, old(src.objects), req.source.repo, plan.value)
                           && DigestNamed(c, old(src.objects), req.source) == Some(plan.value.digest)
    ensures plan.Some? && req.dryRun ==> x.None? && r == Ok(Outcome(plan.value.digest, 0, |plan.value.refs|, 0, true))
    ensures plan.Some? && !req.dryRun ==> x.Some?
    ensures x.None? ==> dst.history == old(dst.history) && dst.objects == old(dst.objects)
    ensures x.Some? ==>
            && plan.Some?
            && x.value == RunOf(old(src.objects), old(dst.objects), |old(dst.history)|, req, plan.value.digest)
            && Sane(x.value) && Safe(x.value, dst.objects) && SafeSince(x.value, dst.history)
    ensures x.Some? && TagComesLast(req, plan.value.digest) ==>
            && TouchedLast(x.value, dst.history, TagKey(req.dest.repo, req.dest.reference))
            && AllOrNothing(c, x.value, dst.objects, req.dest.reference, plan.value)
    ensures r.Ok? && x.Some? ==> Delivered(c, x.value, dst.objects, req, plan.value, r.value)
    ensures r.Ok? && r.value.signaturesCopied > 0 && !SameTag(req.dest.reference, SigTag(r.value.digest)) ==>
            HasSignature(c, dst.objects, req.dest.repo, r.value.digest)
    ensures r.Ok? && !req.dryRun && !IsDigest(req.dest.reference) ==>
              plan.Some? && Promoted(c, dst.objects, req.dest.repo, req.dest.reference, plan.value)
    ensures src.reliable && dst.reliable ==>
            var why := Unreadable(c, old(src.objects), req.source);
            if why.Some? then r == Err(why.value)
            else plan.Some? && (r.Err? ==> r.error.BlobUnknown? && x.Some?
                                           && FirstMissing(x.value, plan.value.refs, r.error.digest))
  {
    var p := MakePlan(c, src, req.source);
    if p.Err? {
      return Err(p.error), None, None;
    }
    plan, x := Some(p.value), None;
    if req.dryRun {
      return Ok(Outcome(p.value.digest, 0, |p.value.refs|, 0, true)), plan, x;
    }
    RunIsSane(src.objects, dst.objects, |dst.history|, req, p.value.digest);
    x := Some(RunOf(src.objects, dst.objects, |dst.history|, req, p.value.digest));
    r := Execute(c, x.value, src, dst, req, p.value);
    if r.Ok? {
      assert Delivered(c, x.value, dst.objects, req, p.value, r.value);
    }
  }

  /** The signature tag of a digest, with and without its prefix. */
  lemma SigTagText(hash: string)
    ensures SigTag("sha256:" + hash) == "sha256-" + hash + ".sig"
    ensures !IsDigest(hash) ==> SigTag(hash) == "sha256-" + hash + ".sig"
  {
    assert Hex("sha256:" + hash) == hash;
  }

  /**
   * A promotion with signatures of a digest whose signature the source stores: it is
   * counted, its manifest and every blob of it that the source has are in the destination,
   * and unless the destination tag is the signature tag itself, that names it there.
   */
  lemma SignatureIsCopied(c: Codec, x: Run, m: Objects, req: Request, plan: Plan, out: Outcome, hash: string, d: string)
    requires Delivered(c, x, m, req, plan, out) && req.includeSignatures && plan.digest == "sha256:" + hash
    requires TagKey(x.source, "sha256-" + hash + ".sig") in x.origin
    requires ManifestKey(x.source, Trim(c.text(x.origin[TagKey(x.source, "sha256-" + hash + ".sig")]))) in x.origin
    ensures var tag := "sha256-" + hash + ".sig";
            var sig := Trim(c.text(x.origin[TagKey(x.source, tag)]));
            var json := c.parse(x.origin[ManifestKey(x.source, sig)]);
            && out.signaturesCopied == 1 && ManifestKey(x.dest, sig) in m
            && (json.Some? && d in Referenced(json.value) && BlobKey(x.source, d) in x.origin ==>
                BlobKey(x.dest, d) in m)
            && (!SameTag(req.dest.reference, tag) ==>
                TagKey(x.dest, tag) in m && m[TagKey(x.dest, tag)] == c.encode(sig))
  {
    SigTagText(hash);
    var sig := SignatureOf(c, x.origin, x.source, plan.digest).value;
    var refs, keys := SignatureRefs(c, x, sig), CopiedKeys(c, x, plan.refs, plan.digest, 1);
    CopiedKeysHoldSignature(c, x, plan.refs, plan.digest, ManifestKey(x.dest, sig));
    PresentBlobsExactly(x, refs, BlobKey(x.dest, d));
    CopiedKeysHoldSignature(c, x, plan.refs, plan.digest, BlobKey(x.dest, d));
  }

  lemma CopiedKeysHoldSignature(c: Codec, x: Run, refs: seq<string>, digest: string, key: Place)
    ensures key in SignatureKeys(c, x, digest) ==> key in CopiedKeys(c, x, refs, digest, 1)
  {
  }

  /** Otherwise none is counted: not asked for, no link, or no manifest under the digest it names. */
  lemma NoSignatureIsCounted(c: Codec, x: Run, m: Objects, req: Request, plan: Plan, out: Outcome, hash: string)
    requires Delivered(c, x, m, req, plan, out) && plan.digest == "sha256:" + hash
    requires var link := TagKey(x.source, "sha256-" + hash + ".sig");
             || !req.includeSignatures || link !in x.origin
             || ManifestKey(x.source, Trim(c.text(x.origin[link]))) !in x.origin
    ensures out.signaturesCopied == 0
  {
    SigTagText(hash);
  }

  /**
   * A destination named `tag/` rewrites the link of `tag`: it is among the links the
   * promotion may touch, and once promoted it names the promoted image.
   */
  lemma SlashedTagIsTheTag(c: Codec, src: Objects, m0: Objects, start: nat, req: Request, tag: string, m: Objects,
                           plan: Plan)
    requires req.dest.reference == tag + "/" && Promoted(c, m, req.dest.repo, req.dest.reference, plan)
    ensures TagKey(req.dest.repo, tag) in RunOf(src, m0, start, req, plan.digest).links
    ensures Promoted(c, m, req.dest.repo, tag, plan)
  {
    TrailingSlashSameTag(req.dest.repo, tag);
  }

  /**
   * The exception is needed: once the signature is copied to the destination tag itself,
   * which happens before the tag is written, the tag names the signature. It is then as it
   * was, or names the promoted image, only if one of those is the same text.
   */
  lemma SignatureTagIsTouchedFirst(c: Codec, x: Run, m: Objects, tag: string, plan: Plan, sig: string)
    requires Signed(c, m, x.dest, plan.digest, sig) && SameTag(tag, SigTag(plan.digest))
    ensures TagKey(x.dest, tag) in m && m[TagKey(x.dest, tag)] == c.encode(sig)
    ensures AllOrNothing(c, x, m, tag, plan) ==>
              || c.encode(sig) == c.encode(plan.digest)
              || (TagKey(x.dest, tag) in x.m0 && x.m0[TagKey(x.dest, tag)] == c.encode(sig))
  {
    KeyParts(x.dest, tag);
    KeyParts(x.dest, SigTag(plan.digest));
  }
}
