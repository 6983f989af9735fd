/**
 * The continuous reaper (crates/specton-gc/src/reaper.rs): selecting rows that have been
 * at zero for longer than the grace period, and reaping one blob.
 *
 * A reap is one transaction. When a storage delete fails the transaction is rolled
 * back, but objects already deleted stay deleted.
 */
module GcReaper {
  import opened Common
  import opened StoragePaths
  import opened GcTables

  // ---- One blob ----

  function RepoOf(p: Path): Repo {
    Repo(p.tenant, p.project, p.repository)
  }

  /** The object a recorded path stands for. */
  function ObjectKey(p: Path): Place {
    BlobKey(RepoOf(p), p.blob)
  }

  function PathsOf(paths: set<Path>, k: Key): set<Path> {
    set p | p in paths && p.tenant == k.tenant && p.blob == k.blob
  }

  ghost function ObjectKeys(paths: set<Path>, k: Key): set<Place> {
    set p | p in PathsOf(paths, k) :: ObjectKey(p)
  }

  function Reaped(s: Tables, k: Key, bytes: int): Tables {
    s.(paths := s.paths - PathsOf(s.paths, k), rows := s.rows - {k}, reaps := s.reaps + [Reap(k, bytes)])
  }

  /** `Ok(true)`, `Ok(false)` and an error. */
  datatype Outcome = Gone | Skipped | Failed

  predicate AtZero(s: Tables, k: Key) {
    k in s.rows && s.rows[k].refcount == 0
  }

  /** What one attempt to reap does to the tables `s` and the stored objects. */
  ghost predicate ReapStep(s: Tables, objects: set<Place>, t: Tables, left: set<Place>, k: Key, bytes: int,
                           r: Outcome)
  {
    match r
    case Gone => AtZero(s, k) && t == Reaped(s, k, bytes) && left == objects - ObjectKeys(s.paths, k)
    case Skipped => !AtZero(s, k) && t == s && left == objects
    case Failed => t == s && objects - ObjectKeys(s.paths, k) <= left <= objects && (left != objects ==> AtZero(s, k))
  }

  /** A reap drops the blob's row and its paths, in whatever repository, logs itself and changes nothing else. */
  lemma ReapedExactly(s: Tables, k: Key, bytes: int)
    ensures var t := Reaped(s, k, bytes);
            && t.edges == s.edges && t.drift == s.drift && t.reaps == s.reaps + [Reap(k, bytes)]
            && (forall j :: j in t.rows <==> j in s.rows && j != k)
            && (forall j :: j in t.rows ==> t.rows[j] == s.rows[j])
            && (forall p :: p in t.paths <==> p in s.paths && !(p.tenant == k.tenant && p.blob == k.blob))
  {
  }

  lemma AtZeroHasNoEdge(s: Tables, k: Key)
    requires Consistent(s) && AtZero(s, k)
    ensures Manifests(s.edges, k) == {}
  {
    assert Count(s.rows, k) == |Manifests(s.edges, k)|;
  }

  /** A blob with a live reference is never reaped, and a reap keeps the tables consistent. */
  lemma ReapIsSafe(s: Tables, objects: set<Place>, t: Tables, left: set<Place>, k: Key, bytes: int, r: Outcome)
    requires Consistent(s) && ReapStep(s, objects, t, left, k, bytes, r)
    ensures Consistent(t) && t.edges == s.edges
    ensures r.Gone? ==> forall m :: Edge(k.tenant, m, k.blob) !in s.edges
    ensures r.Gone? ==> PathsOf(t.paths, k) == {} && left !! ObjectKeys(s.paths, k)
  {
    if r.Gone? {
      AtZeroHasNoEdge(s, k);
      LiveMeansEdge(s.edges, k);
      forall j: Key
        ensures Count(t.rows, j) == |Manifests(t.edges, j)|
      {
        assert Count(s.rows, j) == |Manifests(s.edges, j)|;
      }
      forall e | e in t.edges
        ensures HasPath(t.paths, Key(e.tenant, e.blob))
      {
        assert HasPath(s.paths, Key(e.tenant, e.blob));
        var p :| p in s.paths && p.tenant == e.tenant && p.blob == e.blob;
        assert Edge(e.tenant, e.manifest, e.blob) == e;
        assert p in t.paths;
      }
    }
  }

  /** Where the object of a path lies, segment by segment. */
  ghost function Segmented(p: Path): seq<string> {
    RepoParts(RepoOf(p)) + (["blobs", "sha256"] + Location(Hex(p.blob)))
  }

  /** Some path recorded for the blob `k` has the object of `p`. */
  ghost predicate SharesObject(paths: set<Path>, k: Key, p: Path) {
    exists q :: q in PathsOf(paths, k) && Segmented(q) == Segmented(p)
  }

  /** Which objects a reap deletes, whatever the names are. */
  lemma ReapDeletesExactly(paths: set<Path>, k: Key, p: Path)
    ensures ObjectKey(p) in ObjectKeys(paths, k) <==> SharesObject(paths, k, p)
  {
    forall q: Path
      ensures ObjectKey(q) == Place(Segmented(q))
    {
      KeyParts(RepoOf(q), q.blob);
    }
  }

  ghost predicate NamedPaths(paths: set<Path>) {
    forall p :: p in paths ==> Named(RepoOf(p))
  }

  /** Two digest texts with the same object in every repository. */
  ghost predicate SameHash(a: string, b: string) {
    Location(Hex(a)) == Location(Hex(b))
  }

  /** In repositories with three non-empty slash-free names: the same repository and the same hash. */
  lemma NamedSharesExactly(paths: set<Path>, k: Key, p: Path)
    requires NamedPaths(paths) && Named(RepoOf(p))
    ensures SharesObject(paths, k, p) <==>
            p.tenant == k.tenant && SameHash(p.blob, k.blob) && p.(blob := k.blob) in paths
  {
    ReapDeletesExactly(paths, k, p);
    if ObjectKey(p) in ObjectKeys(paths, k) {
      var q :| q in PathsOf(paths, k) && ObjectKey(q) == ObjectKey(p);
      SameKindKeys(RepoOf(p), p.blob, RepoOf(q), q.blob);
      assert p.(blob := k.blob) == q;
    }
    if p.tenant == k.tenant && SameHash(p.blob, k.blob) && p.(blob := k.blob) in paths {
      var q := p.(blob := k.blob);
      assert q in PathsOf(paths, k);
      SameKindKeys(RepoOf(p), p.blob, RepoOf(q), q.blob);
    }
  }

  /** With slashes in names, repositories of different tenants have the same objects. */
  lemma SlashedNamesShare(t: string, a: string, b: string, c: string, blob: string)
    ensures Segmented(Path(t + ['/'] + a, b, c, blob)) == Segmented(Path(t, a, b + ['/'] + c, blob))
  {
    LocationConcat(t, a);
    LocationConcat(b, c);
    Regroup(Location(t) + Location(a), Location(b), Location(c));
  }

  /**
   * What becomes of the object of a live blob: a reap of another blob deletes it exactly
   * when the two share the object, and a failed one can delete it only then.
   */
  lemma LiveObjectsSurvive(s: Tables, objects: set<Place>, t: Tables, left: set<Place>, k: Key, bytes: int,
                           r: Outcome, e: Edge, p: Path)
    requires Consistent(s) && ReapStep(s, objects, t, left, k, bytes, r)
    requires e in s.edges && p in s.paths && p.tenant == e.tenant && p.blob == e.blob
    requires ObjectKey(p) in objects
    ensures p in t.paths
    ensures r.Gone? ==> (ObjectKey(p) in left <==> !SharesObject(s.paths, k, p))
    ensures !SharesObject(s.paths, k, p) || !AtZero(s, k) ==> ObjectKey(p) in left
  {
    ReapDeletesExactly(s.paths, k, p);
    if AtZero(s, k) {
      AtZeroHasNoEdge(s, k);
      LiveMeansEdge(s.edges, k);
      assert Edge(e.tenant, e.manifest, e.blob) == e;
      assert k != Key(e.tenant, e.blob);
    }
  }

  /** No two blobs are recorded with the same object. */
  ghost predicate OneBlobPerObject(paths: set<Path>) {
    forall p, q :: p in paths && q in paths && Segmented(p) == Segmented(q) ==> p.tenant == q.tenant && p.blob == q.blob
  }

  /** Then a blob shares objects with itself only. */
  lemma OneBlobSharesNothing(paths: set<Path>, k: Key, p: Path)
    requires OneBlobPerObject(paths) && p in paths && k != Key(p.tenant, p.blob)
    ensures !SharesObject(paths, k, p)
  {
  }

  /** Repositories with proper names and digests of the form `sha256:hash` record it so. */
  lemma DigestsAreOneBlob(paths: set<Path>)
    requires NamedPaths(paths)
    requires forall p :: p in paths ==> IsDigest(p.blob) && Hex(p.blob) != "" && '/' !in Hex(p.blob)
    ensures OneBlobPerObject(paths)
  {
    forall p, q | p in paths && q in paths && Segmented(p) == Segmented(q)
      ensures p.tenant == q.tenant && p.blob == q.blob
    {
      KeyParts(RepoOf(p), p.blob);
      KeyParts(RepoOf(q), q.blob);
      SameKindKeys(RepoOf(p), p.blob, RepoOf(q), q.blob);
      SameHexSameDigest(p.blob, q.blob);
    }
  }

  lemma SameHexSameDigest(a: string, b: string)
    requires IsDigest(a) && IsDigest(b) && '/' !in Hex(a) && '/' !in Hex(b) && Hex(a) != "" && Hex(b) != ""
    requires SameHash(a, b)
    ensures a == b
  {
    LocationOfName(Hex(a));
    LocationOfName(Hex(b));
    assert [Hex(a)][0] == [Hex(b)][0];
    assert a == DIGEST_PREFIX + Hex(a) && b == DIGEST_PREFIX + Hex(b);
  }

  // ---- Object storage ----

  datatype Deletion = Deleted | NotFound | Broken

  class ObjectStore {
    var objects: set<Place>

    /** A reliable store carries out every delete and says so. */
    const reliable: bool

    /** A delete that reports an error may have taken effect. */
    method Delete(path: string) returns (r: Deletion)
      modifies this
      ensures r.Deleted? ==> objects == old(objects) - {At(path)}
      ensures r.NotFound? ==> objects == old(objects) && At(path) !in objects
      ensures r.Broken? ==> objects == old(objects) || objects == old(objects) - {At(path)}
      ensures reliable ==> !r.Broken?
    {
      var up: bool, hit: bool := *, *;
      up := up || reliable;
      if hit || up {
        if up && At(path) !in objects {
          return NotFound;
        }
        objects := objects - {At(path)};
      }
      return if up then Deleted else Broken;
    }
  }

  /** Re-checks the count, deletes every recorded object, then drops the bookkeeping. */
  method ReapBlob(db: Database, store: ObjectStore, k: Key, bytes: int) returns (r: Outcome)
    modifies db, store
    ensures ReapStep(old(db.State()), old(store.objects), db.State(), store.objects, k, bytes, r)
    ensures db.reliable && store.reliable ==> !r.Failed?
  {
    var begun: bool := *;
    if !begun && !db.reliable {
      return Failed;
    }
    if k !in db.rows || db.rows[k].refcount != 0 {
      return Skipped;
    }
    var todo := PathsOf(db.paths, k);
    while todo != {}
      invariant db.State() == old(db.State()) && todo <= PathsOf(db.paths, k)
      invariant DeletedSoFar(old(store.objects), store.objects, db.paths, k, todo)
      decreases |todo|
    {
      var p :| p in todo;
      ghost var before := store.objects;
      var d := store.Delete(BlobPath(RepoOf(p), p.blob));
      DeleteStep(old(store.objects), before, store.objects, db.paths, k, todo, p);
      if d.Broken? {
        return Failed;
      }
      todo := todo - {p};
    }
    assert store.objects == old(store.objects) - ObjectKeys(db.paths, k);
    var committed: bool := *;
    if !committed && !db.reliable {
      return Failed;
    }
    db.paths := db.paths - PathsOf(db.paths, k);
    db.rows := db.rows - {k};
    db.reaps := db.reaps + [Reap(k, bytes)];
    return Gone;
  }

  /** Only objects of the blob are gone, and all but those still to do. */
  ghost predicate DeletedSoFar(objects: set<Place>, left: set<Place>, paths: set<Path>, k: Key, todo: set<Path>) {
    && objects - ObjectKeys(paths, k) <= left <= objects
    && forall p :: p in PathsOf(paths, k) && p !in todo ==> ObjectKey(p) !in left
  }

  lemma DeleteStep(objects: set<Place>, before: set<Place>, after: set<Place>, paths: set<Path>, k: Key,
                   todo: set<Path>, p: Path)
    requires DeletedSoFar(objects, before, paths, k, todo) && p in todo && todo <= PathsOf(paths, k)
    requires after == before || after == before - {ObjectKey(p)}
    ensures DeletedSoFar(objects, after, paths, k, todo)
    ensures ObjectKey(p) !in after ==> DeletedSoFar(objects, after, paths, k, todo - {p})
  {
    assert p in PathsOf(paths, k);
    assert ObjectKey(p) in ObjectKeys(paths, k);
  }

  // ---- Selecting a batch ----

  datatype Candidate = Candidate(key: Key, bytes: int)

  predicate Eligible(rows: map<Key, Row>, k: Key, now: int, grace: nat) {
    k in rows && rows[k].refcount == 0 && rows[k].zeroedAt.Some? && rows[k].zeroedAt.value < now - grace
  }

  function EligibleKeys(rows: map<Key, Row>, now: int, grace: nat): set<Key> {
    set k | k in rows && Eligible(rows, k, now, grace)
  }

  ghost predicate Distinct(cs: seq<Candidate>) {
    forall i, j :: 0 <= i < j < |cs| ==> cs[i].key != cs[j].key
  }

  ghost predicate Among(rows: map<Key, Row>, now: int, grace: nat, locked: set<Key>, cs: seq<Candidate>) {
    forall i :: 0 <= i < |cs| ==>
      cs[i].key !in locked && Eligible(rows, cs[i].key, now, grace) && cs[i].bytes == rows[cs[i].key].bytes
  }

  ghost predicate OldestFirst(rows: map<Key, Row>, now: int, grace: nat, cs: seq<Candidate>)
    requires Among(rows, now, grace, {}, cs)
  {
    forall i, j :: 0 <= i < j < |cs| ==> rows[cs[i].key].zeroedAt.value <= rows[cs[j].key].zeroedAt.value
  }

  /** Nothing eligible and unlocked that was left behind is older than something taken. */
  ghost predicate LeftAreYounger(rows: map<Key, Row>, now: int, grace: nat, left: set<Key>, cs: seq<Candidate>)
    requires Among(rows, now, grace, {}, cs) && left <= EligibleKeys(rows, now, grace)
  {
    forall i, k :: 0 <= i < |cs| && k in left ==> rows[cs[i].key].zeroedAt.value <= rows[k].zeroedAt.value
  }

  ghost function KeysOf(cs: seq<Candidate>): set<Key> {
    set i | 0 <= i < |cs| :: cs[i].key
  }

  /**
   * The rows a reaper takes: eligible ones no other transaction has locked, each once,
   * oldest first, as many as the batch allows.
   */
  ghost predicate Selected(rows: map<Key, Row>, now: int, grace: nat, batch: nat, locked: set<Key>,
                           cs: seq<Candidate>)
  {
    && Among(rows, now, grace, locked, cs) && Distinct(cs)
    && OldestFirst(rows, now, grace, cs)
    && LeftAreYounger(rows, now, grace, EligibleKeys(rows, now, grace) - locked - KeysOf(cs), cs)
    && |cs| <= batch
    && (|cs| < batch ==> EligibleKeys(rows, now, grace) - locked <= KeysOf(cs))
  }

  method Oldest(rows: map<Key, Row>, keys: set<Key>) returns (k: Key)
    requires keys != {} && forall j :: j in keys ==> j in rows && rows[j].zeroedAt.Some?
    ensures k in keys && forall j :: j in keys ==> rows[k].zeroedAt.value <= rows[j].zeroedAt.value
  {
    k :| k in keys;
    var todo := keys - {k};
    while todo != {}
      invariant k in keys && todo <= keys
      invariant forall j :: j in keys && j !in todo ==> rows[k].zeroedAt.value <= rows[j].zeroedAt.value
      decreases |todo|
    {
      var j :| j in todo;
      todo := todo - {j};
      if rows[j].zeroedAt.value < rows[k].zeroedAt.value {
        k := j;
      }
    }
  }

  method SelectBatch(rows: map<Key, Row>, now: int, grace: nat, batch: nat, locked: set<Key>)
    returns (cs: seq<Candidate>)
    ensures Selected(rows, now, grace, batch, locked, cs)
  {
    cs := [];
    var left := EligibleKeys(rows, now, grace) - locked;
    TakenNothing(rows, now, grace, locked);
    while left != {} && |cs| < batch
      invariant |cs| <= batch
      invariant Taking(rows, now, grace, locked, left, cs)
      decreases |left|
    {
      var k := Oldest(rows, left);
      TakeOldest(rows, now, grace, locked, left, cs, k);
      cs := cs + [Candidate(k, rows[k].bytes)];
      left := left - {k};
    }
    TakenEnough(rows, now, grace, batch, locked, left, cs);
  }

  ghost predicate Taking(rows: map<Key, Row>, now: int, grace: nat, locked: set<Key>, left: set<Key>,
                         cs: seq<Candidate>)
  {
    && Among(rows, now, grace, locked, cs) && Distinct(cs)
    && left == EligibleKeys(rows, now, grace) - locked - KeysOf(cs)
    && OldestFirst(rows, now, grace, cs) && LeftAreYounger(rows, now, grace, left, cs)
  }

  lemma TakenNothing(rows: map<Key, Row>, now: int, grace: nat, locked: set<Key>)
    ensures Taking(rows, now, grace, locked, EligibleKeys(rows, now, grace) - locked, [])
  {
    assert KeysOf([]) == {};
  }

  lemma TakenEnough(rows: map<Key, Row>, now: int, grace: nat, batch: nat, locked: set<Key>, left: set<Key>,
                    cs: seq<Candidate>)
    requires Taking(rows, now, grace, locked, left, cs) && |cs| <= batch && (left == {} || |cs| == batch)
    ensures Selected(rows, now, grace, batch, locked, cs)
  {
    assert forall k :: k in EligibleKeys(rows, now, grace) - locked && k !in KeysOf(cs) ==> k in left;
  }

  lemma TakenIsAmong(rows: map<Key, Row>, now: int, grace: nat, locked: set<Key>, cs: seq<Candidate>, c: Candidate)
    requires Among(rows, now, grace, locked, cs) && Distinct(cs)
    requires Eligible(rows, c.key, now, grace) && c.key !in locked && c.key !in KeysOf(cs)
             && c.bytes == rows[c.key].bytes
    ensures Among(rows, now, grace, locked, cs + [c]) && Among(rows, now, grace, {}, cs + [c]) && Distinct(cs + [c])
  {
    assert forall i :: 0 <= i < |cs| ==> cs[i].key in KeysOf(cs);
  }

  lemma TakenIsOldest(rows: map<Key, Row>, now: int, grace: nat, left: set<Key>, cs: seq<Candidate>, c: Candidate)
    requires Among(rows, now, grace, {}, cs) && Among(rows, now, grace, {}, cs + [c])
             && left <= EligibleKeys(rows, now, grace)
    requires OldestFirst(rows, now, grace, cs) && LeftAreYounger(rows, now, grace, left, cs) && c.key in left
    requires forall j :: j in left ==> rows[c.key].zeroedAt.value <= rows[j].zeroedAt.value
    ensures OldestFirst(rows, now, grace, cs + [c]) && LeftAreYounger(rows, now, grace, left - {c.key}, cs + [c])
  {
    var more := cs + [c];
    assert forall i :: 0 <= i < |cs| ==> more[i] == cs[i];
    assert more[|cs|] == c;
  }

  lemma TakeOldest(rows: map<Key, Row>, now: int, grace: nat, locked: set<Key>, left: set<Key>, cs: seq<Candidate>,
                   k: Key)
    requires Taking(rows, now, grace, locked, left, cs) && k in left
    requires forall j :: j in left ==> rows[k].zeroedAt.value <= rows[j].zeroedAt.value
    ensures Taking(rows, now, grace, locked, left - {k}, cs + [Candidate(k, rows[k].bytes)])
  {
    var c := Candidate(k, rows[k].bytes);
    assert k in EligibleKeys(rows, now, grace) && k !in locked && k !in KeysOf(cs);
    KeysOfMore(cs, c);
    TakenIsAmong(rows, now, grace, locked, cs, c);
    TakenIsOldest(rows, now, grace, left, cs, c);
  }

  lemma KeysOfMore(cs: seq<Candidate>, c: Candidate)
    ensures KeysOf(cs + [c]) == KeysOf(cs) + {c.key}
  {
    var more := cs + [c];
    forall k | k in KeysOf(cs) + {c.key}
      ensures k in KeysOf(more)
    {
      if k == c.key {
        assert more[|cs|].key == k;
      } else {
        var i :| 0 <= i < |cs| && cs[i].key == k;
        assert more[i].key == k;
      }
    }
  }

  // ---- One cycle ----

  datatype CycleResult = CycleResult(blobs: nat, bytes: int, errors: nat)

  ghost function TotalBytes(reaps: seq<Reap>): int {
    if reaps == [] then 0 else TotalBytes(reaps[..|reaps| - 1]) + reaps[|reaps| - 1].bytes
  }

  /** What a cycle without interference did, given what it selected and how far it got. */
  ghost predicate Cycle(s: Tables, objects: set<Place>, t: Tables, left: set<Place>, cs: seq<Candidate>,
                        res: CycleResult)
  {
    && s.reaps <= t.reaps
    && res.blobs == |t.reaps| - |s.reaps| && res.bytes == TotalBytes(t.reaps) - TotalBytes(s.reaps)
    && res.blobs + res.errors <= |cs|
    && t.edges == s.edges && t.drift == s.drift && left <= objects
    && (forall i :: |s.reaps| <= i < |t.reaps| ==> FromBatch(cs, t.reaps[i]))
    && (forall i :: |s.reaps| <= i < |t.reaps| ==> LeftNoTrace(s, t, left, t.reaps[i].key))
    && (forall k :: k in t.rows ==> k in s.rows && t.rows[k] == s.rows[k])
    && (forall k :: k in s.rows && k !in t.rows ==> ReapedSince(s, t, k))
    && (Consistent(s) ==> Consistent(t))
  }

  ghost predicate FromBatch(cs: seq<Candidate>, r: Reap) {
    exists i :: 0 <= i < |cs| && r == Reap(cs[i].key, cs[i].bytes)
  }

  ghost predicate ReapedSince(s: Tables, t: Tables, k: Key) {
    exists i :: |s.reaps| <= i < |t.reaps| && t.reaps[i].key == k
  }

  ghost predicate LeftNoTrace(s: Tables, t: Tables, left: set<Place>, k: Key) {
    k !in t.rows && PathsOf(t.paths, k) == {} && left !! ObjectKeys(s.paths, k)
  }

  /** The tables never get back a path they lost, so what was deleted for a blob covers all its recorded paths. */
  ghost predicate PathsKept(s: Tables, t: Tables) {
    t.paths <= s.paths && forall k :: k in t.rows ==> PathsOf(t.paths, k) == PathsOf(s.paths, k)
  }

  lemma CycleStep(s: Tables, objects: set<Place>, t: Tables, left: set<Place>, cs: seq<Candidate>, res: CycleResult,
                  u: Tables, rest: set<Place>, c: Candidate, r: Outcome)
    requires Cycle(s, objects, t, left, cs, res) && PathsKept(s, t)
    requires ReapStep(t, left, u, rest, c.key, c.bytes, r)
    ensures Cycle(s, objects, u, rest, cs + [c], Tally(res, c, r)) && PathsKept(s, u)
  {
    if Consistent(s) {
      ReapIsSafe(t, left, u, rest, c.key, c.bytes, r);
    }
    if r.Gone? {
      CycleReaps(s, objects, t, left, cs, res, u, rest, c);
    } else {
      StillFromBatch(s, t, cs, c);
      assert forall i :: |s.reaps| <= i < |t.reaps| ==> LeftNoTrace(s, t, left, t.reaps[i].key);
      assert forall k :: k in s.rows && k !in t.rows ==> ReapedSince(s, t, k);
    }
  }

  lemma StillFromBatch(s: Tables, t: Tables, cs: seq<Candidate>, c: Candidate)
    requires forall i :: |s.reaps| <= i < |t.reaps| ==> FromBatch(cs, t.reaps[i])
    ensures forall i :: |s.reaps| <= i < |t.reaps| ==> FromBatch(cs + [c], t.reaps[i])
  {
    forall i | |s.reaps| <= i < |t.reaps|
      ensures FromBatch(cs + [c], t.reaps[i])
    {
      assert FromBatch(cs, t.reaps[i]);
      var j :| 0 <= j < |cs| && t.reaps[i] == Reap(cs[j].key, cs[j].bytes);
      assert (cs + [c])[j] == cs[j];
    }
  }

  lemma CycleReaps(s: Tables, objects: set<Place>, t: Tables, left: set<Place>, cs: seq<Candidate>, res: CycleResult,
                   u: Tables, rest: set<Place>, c: Candidate)
    requires Cycle(s, objects, t, left, cs, res) && PathsKept(s, t)
    requires ReapStep(t, left, u, rest, c.key, c.bytes, Gone)
    requires Consistent(s) ==> Consistent(u)
    ensures Cycle(s, objects, u, rest, cs + [c], Tally(res, c, Gone)) && PathsKept(s, u)
  {
    assert u.reaps[..|t.reaps|] == t.reaps && u.reaps[|t.reaps|] == Reap(c.key, c.bytes);
    assert (cs + [c])[|cs|] == c;
    StillFromBatch(s, t, cs, c);
    forall i | |s.reaps| <= i < |u.reaps|
      ensures FromBatch(cs + [c], u.reaps[i]) && LeftNoTrace(s, u, rest, u.reaps[i].key)
    {
      if i < |t.reaps| {
        assert u.reaps[i] == t.reaps[i];
        StaysWithoutTrace(s, t, left, t.reaps[i].key, u, rest, c);
      } else {
        ReapedWithoutTrace(s, t, left, u, rest, c);
      }
    }
    StillReapedSince(s, t, u, c);
    PathsStayKept(s, t, u, c);
  }

  lemma ReapedWithoutTrace(s: Tables, t: Tables, left: set<Place>, u: Tables, rest: set<Place>, c: Candidate)
    requires PathsKept(s, t) && ReapStep(t, left, u, rest, c.key, c.bytes, Gone)
    ensures LeftNoTrace(s, u, rest, c.key)
  {
    assert PathsOf(t.paths, c.key) == PathsOf(s.paths, c.key);
  }

  lemma StillReapedSince(s: Tables, t: Tables, u: Tables, c: Candidate)
    requires u == Reaped(t, c.key, c.bytes) && |s.reaps| <= |t.reaps|
    requires forall k :: k in s.rows && k !in t.rows ==> ReapedSince(s, t, k)
    ensures forall k :: k in s.rows && k !in u.rows ==> ReapedSince(s, u, k)
  {
    forall k | k in s.rows && k !in u.rows
      ensures ReapedSince(s, u, k)
    {
      if k == c.key {
        assert u.reaps[|t.reaps|].key == k;
      } else {
        assert ReapedSince(s, t, k);
        var i :| |s.reaps| <= i < |t.reaps| && t.reaps[i].key == k;
        assert u.reaps[i].key == k;
      }
    }
  }

  lemma StaysWithoutTrace(s: Tables, t: Tables, left: set<Place>, k: Key, u: Tables, rest: set<Place>, c: Candidate)
    requires LeftNoTrace(s, t, left, k) && ReapStep(t, left, u, rest, c.key, c.bytes, Gone)
    ensures LeftNoTrace(s, u, rest, k)
  {
    assert PathsOf(u.paths, k) <= PathsOf(t.paths, k);
  }

  lemma PathsStayKept(s: Tables, t: Tables, u: Tables, c: Candidate)
    requires PathsKept(s, t) && u == Reaped(t, c.key, c.bytes)
    ensures PathsKept(s, u)
  {
    forall k | k in u.rows
      ensures PathsOf(u.paths, k) == PathsOf(s.paths, k)
    {
      assert PathsOf(t.paths, k) == PathsOf(s.paths, k) && k != c.key;
      assert PathsOf(u.paths, k) == PathsOf(t.paths, k);
    }
  }

  function Tally(res: CycleResult, c: Candidate, r: Outcome): CycleResult {
    match r
    case Gone => CycleResult(res.blobs + 1, res.bytes + c.bytes, res.errors)
    case Skipped => res
    case Failed => res.(errors := res.errors + 1)
  }

  lemma NotReapedYet(s: Tables, t: Tables, cs: seq<Candidate>, i: nat)
    requires i < |cs| && Distinct(cs)
    requires forall j :: |s.reaps| <= j < |t.reaps| ==> FromBatch(cs[..i], t.reaps[j])
    ensures !ReapedSince(s, t, cs[i].key)
  {
    forall j | |s.reaps| <= j < |t.reaps|
      ensures t.reaps[j].key != cs[i].key
    {
      assert FromBatch(cs[..i], t.reaps[j]);
      var l :| 0 <= l < i && t.reaps[j] == Reap(cs[..i][l].key, cs[..i][l].bytes);
      assert cs[..i][l] == cs[l];
    }
  }

  /** A cycle that tried the first `i` rows: each was reaped or counts as an error. */
  ghost predicate CycleSoFar(s: Tables, objects: set<Place>, t: Tables, left: set<Place>, cs: seq<Candidate>, i: nat,
                             res: CycleResult)
    requires i <= |cs|
  {
    Cycle(s, objects, t, left, cs[..i], res) && PathsKept(s, t) && res.blobs + res.errors == i
  }

  /** In a cycle nobody disturbs, a selected row is still at zero when its turn comes. */
  lemma StillAtZero(s: Tables, objects: set<Place>, t: Tables, left: set<Place>, cs: seq<Candidate>, i: nat,
                    res: CycleResult, now: int, grace: nat, locked: set<Key>)
    requires i < |cs| && Cycle(s, objects, t, left, cs[..i], res)
    requires Among(s.rows, now, grace, locked, cs) && Distinct(cs)
    ensures AtZero(t, cs[i].key)
  {
    assert Eligible(s.rows, cs[i].key, now, grace);
    NotReapedYet(s, t, cs, i);
  }

  lemma CycleGoesOn(s: Tables, objects: set<Place>, t: Tables, left: set<Place>, cs: seq<Candidate>, i: nat,
                    res: CycleResult, u: Tables, rest: set<Place>, o: Outcome, now: int, grace: nat, locked: set<Key>)
    requires i < |cs| && CycleSoFar(s, objects, t, left, cs, i, res)
    requires Among(s.rows, now, grace, locked, cs) && Distinct(cs)
    requires ReapStep(t, left, u, rest, cs[i].key, cs[i].bytes, o)
    ensures !o.Skipped? && CycleSoFar(s, objects, u, rest, cs, i + 1, Tally(res, cs[i], o))
  {
    StillAtZero(s, objects, t, left, cs, i, res, now, grace, locked);
    CycleStep(s, objects, t, left, cs[..i], res, u, rest, cs[i], o);
    OneMoreTried(cs, i);
  }

  lemma OneMoreTried(cs: seq<Candidate>, i: nat)
    requires i < |cs|
    ensures cs[..i] + [cs[i]] == cs[..i + 1]
  {
  }

  lemma CycleEnds(s: Tables, objects: set<Place>, t: Tables, left: set<Place>, cs: seq<Candidate>, n: nat,
                  res: CycleResult)
    requires n <= |cs| && CycleSoFar(s, objects, t, left, cs, n, res)
    ensures Cycle(s, objects, t, left, cs, res) && res.blobs + res.errors == n
  {
    CycleOfMore(s, objects, t, left, cs, n, res);
  }

  lemma CycleBegins(s: Tables, objects: set<Place>, cs: seq<Candidate>)
    ensures CycleSoFar(s, objects, s, objects, cs, 0, CycleResult(0, 0, 0))
  {
  }

  /** How far a batch is drained: up to the first row before which the operator is seen to pause or stop. */
  ghost predicate DrainedTo(cs: seq<Candidate>, halted: nat -> bool, n: nat) {
    n <= |cs| && GoesOn(halted, n) && (n < |cs| ==> halted(n))
  }

  ghost predicate GoesOn(halted: nat -> bool, n: nat) {
    forall i :: 0 <= i < n ==> !halted(i)
  }

  /** The next row of a batch. */
  method ReapNext(db: Database, store: ObjectStore, cs: seq<Candidate>, i: nat, res: CycleResult, ghost s: Tables,
                  ghost objects: set<Place>, ghost now: int, ghost grace: nat, ghost locked: set<Key>)
    returns (next: CycleResult)
    requires i < |cs| && CycleSoFar(s, objects, db.State(), store.objects, cs, i, res)
    requires Among(s.rows, now, grace, locked, cs) && Distinct(cs)
    modifies db, store
    ensures CycleSoFar(s, objects, db.State(), store.objects, cs, i + 1, next)
    ensures db.reliable && store.reliable ==> next.errors == res.errors
  {
    ghost var t, left := db.State(), store.objects;
    var o := ReapBlob(db, store, cs[i].key, cs[i].bytes);
    CycleGoesOn(s, objects, t, left, cs, i, res, db.State(), store.objects, o, now, grace, locked);
    next := Tally(res, cs[i], o);
  }

  /** The loop over a selected batch. */
  method DrainBatch(db: Database, store: ObjectStore, cs: seq<Candidate>, halted: nat -> bool, ghost now: int,
                    ghost grace: nat, ghost locked: set<Key>)
    returns (res: CycleResult, tried: nat)
    requires Among(db.rows, now, grace, locked, cs) && Distinct(cs)
    modifies db, store
    ensures DrainedTo(cs, halted, tried)
    ensures CycleSoFar(old(db.State()), old(store.objects), db.State(), store.objects, cs, tried, res)
    ensures db.reliable && store.reliable ==> res.errors == 0
  {
    res, tried := CycleResult(0, 0, 0), 0;
    ghost var s, objects := db.State(), store.objects;
    CycleBegins(s, objects, cs);
    while tried < |cs| && !halted(tried)
      invariant tried <= |cs| && GoesOn(halted, tried)
      invariant CycleSoFar(s, objects, db.State(), store.objects, cs, tried, res)
      invariant db.reliable && store.reliable ==> res.errors == 0
    {
      res := ReapNext(db, store, cs, tried, res, s, objects, now, grace, locked);
      tried := tried + 1;
    }
  }

  /**
   * Drains one batch; an operator's pause or stop, seen before row `i` when `halted(i)`, ends
   * it early. Every row tried is reaped or counts as an error. The database refuses a
   * negative batch size.
   */
  method ReapOneCycle(db: Database, store: ObjectStore, now: int, grace: nat, batch: int, locked: set<Key>,
                      halted: nat -> bool)
    returns (r: Result<CycleResult, ()>, ghost cs: seq<Candidate>)
    modifies db, store
    ensures batch < 0 ==> r.Err?
    ensures r.Err? ==> db.State() == old(db.State()) && store.objects == old(store.objects)
    ensures r.Ok? ==> Selected(old(db.rows), now, grace, batch, locked, cs)
                      && Cycle(old(db.State()), old(store.objects), db.State(), store.objects, cs, r.value)
    ensures r.Ok? ==> DrainedTo(cs, halted, r.value.blobs + r.value.errors)
    ensures db.reliable && batch >= 0 ==> r.Ok?
    ensures db.reliable && store.reliable && r.Ok? ==> r.value.errors == 0
  {
    cs := [];
    var answered: bool := *;
    if batch < 0 || (!answered && !db.reliable) {
      return Err(()), cs;
    }
    var batchRows := SelectBatch(db.rows, now, grace, batch, locked);
    cs := batchRows;
    ghost var s, objects := db.State(), store.objects;
    var res, tried := DrainBatch(db, store, batchRows, halted, now, grace, locked);
    CycleEnds(s, objects, db.State(), store.objects, batchRows, tried, res);
    return Ok(res), cs;
  }

  lemma CycleOfMore(s: Tables, objects: set<Place>, t: Tables, left: set<Place>, cs: seq<Candidate>, n: nat,
                    res: CycleResult)
    requires n <= |cs| && Cycle(s, objects, t, left, cs[..n], res)
    ensures Cycle(s, objects, t, left, cs, res)
  {
    forall i | |s.reaps| <= i < |t.reaps|
      ensures FromBatch(cs, t.reaps[i])
    {
      assert FromBatch(cs[..n], t.reaps[i]);
      var j :| 0 <= j < |cs[..n]| && t.reaps[i] == Reap(cs[..n][j].key, cs[..n][j].bytes);
      assert cs[..n][j] == cs[j];
    }
  }
}
