/**
 * Object-store keys and image references
 * (crates/specton-common/src/storage.rs, `ImageRef` in crates/specton-registry/src/promote.rs).
 *
 * Every store call turns its key into the object store's own path type, which splits it
 * at slashes and drops empty segments.
 */
module StoragePaths {
  import opened Common
  import opened Text

  datatype Repo = Repo(tenant: string, project: string, repository: string)

  const DIGEST_PREFIX := "sha256:"

  predicate IsDigest(s: string) {
    DIGEST_PREFIX <= s
  }

  function Hex(digest: string): string {
    if IsDigest(digest) then digest[|DIGEST_PREFIX|..] else digest
  }

  function Base(r: Repo): string {
    r.tenant + ['/'] + (r.project + ['/'] + (r.repository + ['/']))
  }

  function BlobPath(r: Repo, digest: string): string {
    Base(r) + ("blobs/sha256/" + Hex(digest))
  }

  function ManifestPath(r: Repo, reference: string): string {
    Base(r) + ("manifests/" + reference)
  }

  function TagPath(r: Repo, tag: string): string {
    Base(r) + ("tags/" + tag)
  }

  /** The three kinds of paths, written out. */
  lemma PathsAsText(t: string, p: string, r: string, hash: string, name: string)
    ensures BlobPath(Repo(t, p, r), "sha256:" + hash) == t + "/" + p + "/" + r + "/blobs/sha256/" + hash
    ensures !IsDigest(hash) ==> BlobPath(Repo(t, p, r), hash) == t + "/" + p + "/" + r + "/blobs/sha256/" + hash
    ensures ManifestPath(Repo(t, p, r), name) == t + "/" + p + "/" + r + "/manifests/" + name
    ensures TagPath(Repo(t, p, r), name) == t + "/" + p + "/" + r + "/tags/" + name
  {
    assert Hex("sha256:" + hash) == hash;
    BaseAsText(t, p, r, "blobs/sha256/" + hash);
    BaseAsText(t, p, r, "manifests/" + name);
    BaseAsText(t, p, r, "tags/" + name);
    assert "/" + ("blobs/sha256/" + hash) == "/blobs/sha256/" + hash;
    assert "/" + ("manifests/" + name) == "/manifests/" + name;
    assert "/" + ("tags/" + name) == "/tags/" + name;
    Flatten(t + "/" + p + "/" + r, "/blobs/sha256/", hash);
    Flatten(t + "/" + p + "/" + r, "/manifests/", name);
    Flatten(t + "/" + p + "/" + r, "/tags/", name);
  }

  lemma Flatten(a: string, b: string, c: string)
    ensures a + (b + c) == a + b + c
  {
  }

  lemma BaseAsText(t: string, p: string, r: string, rest: string)
    ensures Base(Repo(t, p, r)) + rest == t + "/" + p + "/" + r + ("/" + rest)
  {
  }

  // ---- Which object a path names ----

  /** `split('/')`: the pieces between slashes. */
  function Segments(s: string): (ps: seq<string>)
    ensures |ps| >= 1
  {
    var k := IndexOf(s, '/');
    if k == |s| then [s] else [s[..k]] + Segments(s[k + 1..])
  }

  function NonEmpty(ps: seq<string>): seq<string> {
    if ps == [] then [] else Part(ps[0]) + NonEmpty(ps[1..])
  }

  function Part(s: string): seq<string> {
    if s == "" then [] else [s]
  }

  /** The store drops empty segments: a path is the list of the others. */
  function Location(path: string): seq<string> {
    NonEmpty(Segments(path))
  }

  /** An object's place in the store. */
  datatype Place = Place(segments: seq<string>)

  function At(path: string): Place {
    Place(Location(path))
  }

  function BlobKey(r: Repo, digest: string): Place {
    At(BlobPath(r, digest))
  }

  function ManifestKey(r: Repo, reference: string): Place {
    At(ManifestPath(r, reference))
  }

  function TagKey(r: Repo, tag: string): Place {
    At(TagPath(r, tag))
  }

  lemma {:induction false} NonEmptyConcat(a: seq<string>, b: seq<string>)
    ensures NonEmpty(a + b) == NonEmpty(a) + NonEmpty(b)
  {
    if a == [] {
      assert a + b == b;
    } else {
      NonEmptyConcat(a[1..], b);
      NonEmptyStep(a);
      NonEmptyStep(a + b);
      assert (a + b)[1..] == a[1..] + b;
      Regroup(Part(a[0]), NonEmpty(a[1..]), NonEmpty(b));
    }
  }

  lemma NonEmptyStep(ps: seq<string>)
    requires ps != []
    ensures NonEmpty(ps) == Part(ps[0]) + NonEmpty(ps[1..])
  {
  }

  lemma Regroup<T>(a: seq<T>, b: seq<T>, c: seq<T>)
    ensures a + (b + c) == a + b + c
  {
  }

  lemma SegmentsInFront(front: string, rest: string, b: string)
    requires '/' !in front && Segments(rest + ['/'] + b) == Segments(rest) + Segments(b)
    ensures Segments(front + ['/'] + rest + ['/'] + b) == Segments(front + ['/'] + rest) + Segments(b)
  {
    RegroupPath(front, rest, b);
    SegmentsOfMore(front, rest + ['/'] + b);
    SegmentsOfMore(front, rest);
    Regroup([front], Segments(rest), Segments(b));
  }

  lemma {:induction false} SegmentsConcat(a: string, b: string)
    ensures Segments(a + ['/'] + b) == Segments(a) + Segments(b)
    decreases |a|
  {
    if '/' !in a {
      SegmentsOfMore(a, b);
      SegmentsOfOne(a);
    } else {
      var front, rest := CutAtSlash(a);
      SegmentsConcat(rest, b);
      SegmentsInFront(front, rest, b);
    }
  }

  lemma CutAtSlash(a: string) returns (front: string, rest: string)
    requires '/' in a
    ensures '/' !in front && a == front + ['/'] + rest
  {
    var k := IndexOf(a, '/');
    assert k < |a|;
    front, rest := a[..k], a[k + 1..];
  }

  lemma RegroupPath(a: string, b: string, c: string)
    ensures a + ['/'] + b + ['/'] + c == a + ['/'] + (b + ['/'] + c)
  {
  }

  /** Joining two paths joins their locations. */
  lemma LocationConcat(a: string, b: string)
    ensures Location(a + ['/'] + b) == Location(a) + Location(b)
  {
    SegmentsConcat(a, b);
    NonEmptyConcat(Segments(a), Segments(b));
  }

  lemma LocationOfName(s: string)
    requires '/' !in s
    ensures Location(s) == if s == "" then [] else [s]
  {
    SegmentsOfOne(s);
    assert NonEmpty([s][1..]) == [];
  }

  function RepoParts(r: Repo): seq<string> {
    Location(r.tenant) + Location(r.project) + Location(r.repository)
  }

  lemma BaseParts(r: Repo, rest: string)
    ensures Location(Base(r) + rest) == RepoParts(r) + Location(rest)
  {
    var inner := r.repository + ['/'] + rest;
    var middle := r.project + ['/'] + inner;
    assert Base(r) + rest == r.tenant + ['/'] + middle;
    LocationConcat(r.tenant, middle);
    LocationConcat(r.project, inner);
    LocationConcat(r.repository, rest);
  }

  lemma UnderName(name: string, rest: string)
    requires '/' !in name && name != ""
    ensures Location(name + ['/'] + rest) == [name] + Location(rest)
  {
    LocationConcat(name, rest);
    LocationOfName(name);
  }

  lemma KindParts(rest: string)
    ensures Location("manifests/" + rest) == ["manifests"] + Location(rest)
    ensures Location("tags/" + rest) == ["tags"] + Location(rest)
  {
    assert "manifests/" + rest == "manifests" + ['/'] + rest;
    UnderName("manifests", rest);
    assert "tags/" + rest == "tags" + ['/'] + rest;
    UnderName("tags", rest);
  }

  lemma BlobParts(rest: string)
    ensures Location("blobs/sha256/" + rest) == ["blobs", "sha256"] + Location(rest)
  {
    assert "blobs/sha256/" + rest == "blobs" + ['/'] + ("sha256" + ['/'] + rest);
    UnderName("blobs", "sha256" + ['/'] + rest);
    UnderName("sha256", rest);
    Regroup(["blobs"], ["sha256"], Location(rest));
  }

  /** The object a key names, segment by segment, whatever the names hold. */
  lemma KeyParts(r: Repo, name: string)
    ensures BlobKey(r, name) == Place(RepoParts(r) + (["blobs", "sha256"] + Location(Hex(name))))
    ensures ManifestKey(r, name) == Place(RepoParts(r) + (["manifests"] + Location(name)))
    ensures TagKey(r, name) == Place(RepoParts(r) + (["tags"] + Location(name)))
  {
    BaseParts(r, "blobs/sha256/" + Hex(name));
    BlobParts(Hex(name));
    BaseParts(r, "manifests/" + name);
    BaseParts(r, "tags/" + name);
    KindParts(name);
  }

  /** Three non-empty segments, as parsed references have. */
  ghost predicate Named(r: Repo) {
    && '/' !in r.tenant && '/' !in r.project && '/' !in r.repository
    && r.tenant != "" && r.project != "" && r.repository != ""
  }

  lemma NamedParts(r: Repo)
    requires Named(r)
    ensures RepoParts(r) == [r.tenant, r.project, r.repository]
  {
    LocationOfName(r.tenant);
    LocationOfName(r.project);
    LocationOfName(r.repository);
  }

  lemma PartsCancel(a: Repo, x: seq<string>, b: Repo, y: seq<string>)
    requires Named(a) && Named(b)
    ensures RepoParts(a) + x == RepoParts(b) + y <==> a == b && x == y
  {
    NamedParts(a);
    NamedParts(b);
    var p, q := RepoParts(a) + x, RepoParts(b) + y;
    if p == q {
      assert p[0] == a.tenant && p[1] == a.project && p[2] == a.repository;
      assert q[0] == b.tenant && q[1] == b.project && q[2] == b.repository;
      assert p[3..] == x && q[3..] == y;
    }
  }

  lemma FrontCancels(f: seq<string>, x: seq<string>, y: seq<string>)
    ensures f + x == f + y <==> x == y
  {
    assert (f + x)[|f|..] == x && (f + y)[|f|..] == y;
  }

  /** Keys of one kind name the same object exactly for the same repository and the same name up to empty segments. */
  lemma SameKindKeys(a: Repo, x: string, b: Repo, y: string)
    requires Named(a) && Named(b)
    ensures BlobKey(a, x) == BlobKey(b, y) <==> a == b && Location(Hex(x)) == Location(Hex(y))
    ensures ManifestKey(a, x) == ManifestKey(b, y) <==> a == b && Location(x) == Location(y)
    ensures TagKey(a, x) == TagKey(b, y) <==> a == b && Location(x) == Location(y)
  {
    KeyParts(a, x);
    KeyParts(b, y);
    PartsCancel(a, ["blobs", "sha256"] + Location(Hex(x)), b, ["blobs", "sha256"] + Location(Hex(y)));
    FrontCancels(["blobs", "sha256"], Location(Hex(x)), Location(Hex(y)));
    PartsCancel(a, ["manifests"] + Location(x), b, ["manifests"] + Location(y));
    FrontCancels(["manifests"], Location(x), Location(y));
    PartsCancel(a, ["tags"] + Location(x), b, ["tags"] + Location(y));
    FrontCancels(["tags"], Location(x), Location(y));
  }

  lemma FourthPart(r: Repo, kind: string, x: seq<string>)
    requires Named(r)
    ensures |RepoParts(r) + ([kind] + x)| > 3 && (RepoParts(r) + ([kind] + x))[3] == kind
  {
    NamedParts(r);
  }

  /** Blobs, manifests and tag links never share an object. */
  lemma KindsAreDisjoint(a: Repo, x: string, b: Repo, y: string)
    requires Named(a) && Named(b)
    ensures BlobKey(a, x) != ManifestKey(b, y) && BlobKey(a, x) != TagKey(b, y) && ManifestKey(a, x) != TagKey(b, y)
  {
    KeyParts(a, x);
    KeyParts(b, y);
    assert "blobs"[0] == 'b' && "manifests"[0] == 'm' && "tags"[0] == 't';
    Front("blobs", "sha256", Location(Hex(x)));
    DifferentKinds(a, "blobs", ["sha256"] + Location(Hex(x)), b, "manifests", Location(y));
    DifferentKinds(a, "blobs", ["sha256"] + Location(Hex(x)), b, "tags", Location(y));
    DifferentKinds(a, "manifests", Location(x), b, "tags", Location(y));
  }

  lemma Front(a: string, b: string, rest: seq<string>)
    ensures [a, b] + rest == [a] + ([b] + rest)
  {
  }

  lemma DifferentKinds(a: Repo, kind: string, x: seq<string>, b: Repo, other: string, y: seq<string>)
    requires Named(a) && Named(b) && kind != other
    ensures RepoParts(a) + ([kind] + x) != RepoParts(b) + ([other] + y)
  {
    FourthPart(a, kind, x);
    FourthPart(b, other, y);
  }

  /** Without three non-empty segments a tag can name another repository's blob. */
  lemma EmptySegmentsCollide(tenant: string, hash: string)
    requires !IsDigest(hash)
    ensures TagKey(Repo(tenant, "", ""), "blobs/sha256/" + hash) == BlobKey(Repo(tenant, "tags", ""), hash)
  {
    var bare, tags := Repo(tenant, "", ""), Repo(tenant, "tags", "");
    var rest := ["blobs", "sha256"] + Location(hash);
    KeyParts(bare, "blobs/sha256/" + hash);
    KeyParts(tags, hash);
    BlobParts(hash);
    BareParts(tenant);
    Regroup(Location(tenant), ["tags"], rest);
    assert TagKey(bare, "blobs/sha256/" + hash) == Place(Location(tenant) + (["tags"] + rest));
  }

  lemma BareParts(tenant: string)
    ensures RepoParts(Repo(tenant, "", "")) == Location(tenant)
    ensures RepoParts(Repo(tenant, "tags", "")) == Location(tenant) + ["tags"]
  {
    LocationOfName("");
    LocationOfName("tags");
  }

  /** A trailing slash names the same tag. */
  lemma TrailingSlashSameTag(r: Repo, tag: string)
    ensures Location(tag + "/") == Location(tag)
    ensures TagKey(r, tag + "/") == TagKey(r, tag)
  {
    assert tag + "/" == tag + ['/'] + "";
    LocationConcat(tag, "");
    LocationOfName("");
    KeyParts(r, tag);
    KeyParts(r, tag + "/");
  }

  // ---- Image references ----

  datatype ImageRef = ImageRef(repo: Repo, reference: string)

  /** Exactly three non-empty segments. */
  function ParseRepo(path: string): Option<Repo> {
    var ps := Segments(path);
    if |ps| != 3 || ps[0] == "" || ps[1] == "" || ps[2] == "" then None else Some(Repo(ps[0], ps[1], ps[2]))
  }

  function Parse(s: string): Option<ImageRef> {
    var at := SplitOnce(s, '@');
    if at.Some? then
      var repo := ParseRepo(at.value.0);
      if repo.None? then None else Some(ImageRef(repo.value, at.value.1))
    else
      var colon := RSplitOnce(s, ':');
      if colon.None? || '/' !in colon.value.0 then None
      else
        var repo := ParseRepo(colon.value.0);
        if repo.None? then None else Some(ImageRef(repo.value, colon.value.1))
  }

  function PathText(r: Repo): string {
    r.tenant + ['/'] + (r.project + ['/'] + r.repository)
  }

  function Display(i: ImageRef): string {
    PathText(i.repo) + [if IsDigest(i.reference) then '@' else ':'] + i.reference
  }

  /** References, written out: a tag after a colon, a digest after an at sign. */
  lemma ReferencesAsText(t: string, p: string, r: string, reference: string)
    ensures Display(ImageRef(Repo(t, p, r), reference)) ==
            t + "/" + p + "/" + r + (if IsDigest(reference) then "@" else ":") + reference
  {
  }

  lemma SegmentsOfOne(s: string)
    requires '/' !in s
    ensures Segments(s) == [s]
  {
    assert forall i :: 0 <= i < |s| ==> s[i] != '/';
  }

  lemma SegmentsOfMore(a: string, rest: string)
    requires '/' !in a
    ensures Segments(a + ['/'] + rest) == [a] + Segments(rest)
  {
    SplitOnceAt(a, '/', rest);
  }

  lemma ParsesItsPath(r: Repo)
    requires Named(r)
    ensures ParseRepo(PathText(r)) == Some(r)
  {
    SegmentsOfMore(r.tenant, r.project + ['/'] + r.repository);
    SegmentsOfMore(r.project, r.repository);
    SegmentsOfOne(r.repository);
  }

  lemma FirstSegment(s: string)
    ensures '/' !in Segments(s)[0]
    ensures |Segments(s)| == 1 ==> Segments(s)[0] == s
    ensures |Segments(s)| > 1 ==> var k := IndexOf(s, '/');
                                  k < |s| && s == Segments(s)[0] + ['/'] + s[k + 1..]
                                      && Segments(s)[1..] == Segments(s[k + 1..])
  {
    var k := IndexOf(s, '/');
    assert forall i :: 0 <= i < k ==> s[..k][i] != '/';
    if k < |s| {
      assert s == s[..k] + ['/'] + s[k + 1..];
    }
  }

  lemma OnlyItsPathParses(path: string, r: Repo)
    requires ParseRepo(path) == Some(r)
    ensures Named(r) && path == PathText(r)
  {
    FirstSegment(path);
    var rest := path[IndexOf(path, '/') + 1..];
    assert Segments(path)[1..] == Segments(rest);
    FirstSegment(rest);
    var last := rest[IndexOf(rest, '/') + 1..];
    assert Segments(rest)[1..] == Segments(last);
    FirstSegment(last);
  }

  /** The references that survive printing. */
  ghost predicate Printable(i: ImageRef) {
    && Named(i.repo)
    && '@' !in PathText(i.repo)
    && (IsDigest(i.reference) || ('@' !in i.reference && ':' !in i.reference))
  }

  lemma PrintedParses(i: ImageRef)
    requires Printable(i)
    ensures Parse(Display(i)) == Some(i)
  {
    var path, s := PathText(i.repo), Display(i);
    ParsesItsPath(i.repo);
    if IsDigest(i.reference) {
      SplitOnceAt(path, '@', i.reference);
    } else {
      NotIn(s, '@');
      RSplitOnceAt(path, ':', i.reference);
      assert path[|i.repo.tenant|] == '/';
    }
  }

  lemma NotIn(s: string, c: char)
    requires c !in s
    ensures SplitOnce(s, c) == None
  {
    assert forall i :: 0 <= i < |s| ==> s[i] != c;
  }

  lemma OnlyPrintableParses(i: ImageRef)
    requires Parse(Display(i)) == Some(i)
    ensures Printable(i)
  {
    var path, s := PathText(i.repo), Display(i);
    var at := IndexOf(s, '@');
    if at < |s| {
      OnlyItsPathParses(s[..at], i.repo);
      assert s[|path|] == '@';
      assert forall k :: 0 <= k < |path| ==> path[k] == s[k];
    } else {
      var colon := LastIndexOf(s, ':').value;
      OnlyItsPathParses(s[..colon], i.repo);
      assert colon == |path| && s[|path|] == ':';
      assert forall k :: 0 <= k < |path| ==> path[k] == s[k];
      assert forall k :: 0 <= k < |i.reference| ==> i.reference[k] == s[|path| + 1 + k];
    }
  }

  /** Parsing inverts printing for exactly the printable references. */
  lemma RefRoundTrip(i: ImageRef)
    ensures Parse(Display(i)) == Some(i) <==> Printable(i)
  {
    if Printable(i) {
      PrintedParses(i);
    } else if Parse(Display(i)) == Some(i) {
      OnlyPrintableParses(i);
    }
  }

  /** The parser takes a tag with a trailing slash, which names the tag without it. */
  lemma SlashedTagParses(r: Repo, tag: string)
    requires Printable(ImageRef(r, tag)) && !IsDigest(tag) && !IsDigest(tag + "/")
    ensures Parse(PathText(r) + [':'] + (tag + "/")) == Some(ImageRef(r, tag + "/"))
    ensures TagKey(r, tag + "/") == TagKey(r, tag) && tag + "/" != tag
  {
    PrintedParses(ImageRef(r, tag + "/"));
    TrailingSlashSameTag(r, tag);
    assert |tag + "/"| == |tag| + 1;
  }
}
