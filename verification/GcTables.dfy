/**
 * The garbage collector's tables and the two writes that follow a manifest push and a
 * manifest delete (crates/specton-gc/src/refcount.rs, migrations for the online collector).
 *
 * A transaction is one atomic step. `NOW()` is a parameter. Column `last_seen_at`
 * is not modelled.
 */
module GcTables {
  import opened Common

  datatype Edge = Edge(tenant: string, manifest: string, blob: string)

  /** The primary key of the refcount table. */
  datatype Key = Key(tenant: string, blob: string)

  datatype Row = Row(refcount: nat, zeroedAt: Option<int>, bytes: int)

  datatype Path = Path(tenant: string, project: string, repository: string, blob: string)

  datatype Reap = Reap(key: Key, bytes: int)

  datatype Kind = Missing | Orphan | Underflow

  datatype Drift = Drift(key: Key, kind: Kind, expected: nat, observed: nat)

  datatype Tables = Tables(edges: set<Edge>, rows: map<Key, Row>, paths: set<Path>, reaps: seq<Reap>, drift: seq<Drift>)

  datatype Blob = Blob(digest: string, size: int)

  const EMPTY := Tables({}, map[], {}, [], [])

  // ---- The invariant ----

  /** The manifests that refer to a blob. */
  function Manifests(edges: set<Edge>, k: Key): set<string> {
    set e | e in edges && e.tenant == k.tenant && e.blob == k.blob :: e.manifest
  }

  /** An absent row counts as zero. */
  function Count(rows: map<Key, Row>, k: Key): nat {
    if k in rows then rows[k].refcount else 0
  }

  ghost predicate CountsEdges(s: Tables) {
    forall k: Key :: Count(s.rows, k) == |Manifests(s.edges, k)|
  }

  ghost predicate ZeroedIffZero(rows: map<Key, Row>) {
    forall k :: k in rows ==> (rows[k].zeroedAt.Some? <==> rows[k].refcount == 0)
  }

  ghost predicate HasPath(paths: set<Path>, k: Key) {
    exists p :: p in paths && p.tenant == k.tenant && p.blob == k.blob
  }

  ghost predicate EdgesHavePaths(s: Tables) {
    forall e :: e in s.edges ==> HasPath(s.paths, Key(e.tenant, e.blob))
  }

  ghost predicate Consistent(s: Tables) {
    CountsEdges(s) && ZeroedIffZero(s.rows) && EdgesHavePaths(s)
  }

  lemma EmptyIsConsistent()
    ensures Consistent(EMPTY)
  {
    forall k: Key
      ensures Manifests(EMPTY.edges, k) == {}
    {
    }
  }

  lemma ManifestsPlus(edges: set<Edge>, e: Edge, k: Key)
    requires e !in edges
    ensures Manifests(edges + {e}, k) == if k == Key(e.tenant, e.blob) then Manifests(edges, k) + {e.manifest}
            else Manifests(edges, k)
    ensures k == Key(e.tenant, e.blob) ==> e.manifest !in Manifests(edges, k)
  {
    if k == Key(e.tenant, e.blob) {
      assert forall f :: f in edges && f.tenant == e.tenant && f.blob == e.blob && f.manifest == e.manifest ==> f == e;
      forall m | m in Manifests(edges, k) + {e.manifest}
        ensures m in Manifests(edges + {e}, k)
      {
        if m == e.manifest {
          assert e in edges + {e};
        } else {
          var f :| f in edges && f.tenant == k.tenant && f.blob == k.blob && f.manifest == m;
          assert f in edges + {e};
        }
      }
    } else {
      forall m | m in Manifests(edges, k)
        ensures m in Manifests(edges + {e}, k)
      {
        var f :| f in edges && f.tenant == k.tenant && f.blob == k.blob && f.manifest == m;
        assert f in edges + {e};
      }
    }
  }

  /** A blob has a live reference exactly when some edge leads to it. */
  lemma LiveMeansEdge(edges: set<Edge>, k: Key)
    ensures |Manifests(edges, k)| > 0 <==> exists m :: Edge(k.tenant, m, k.blob) in edges
  {
    if |Manifests(edges, k)| > 0 {
      var m :| m in Manifests(edges, k);
      assert Edge(k.tenant, m, k.blob) in edges;
    }
    if exists m :: Edge(k.tenant, m, k.blob) in edges {
      var m :| Edge(k.tenant, m, k.blob) in edges;
      assert m in Manifests(edges, k);
    }
  }

  // ---- A push ----

  function Greatest(a: int, b: int): int {
    if a < b then b else a
  }

  /** One more reference: the row is created, or counted up and taken off the zeroed list. */
  function Bumped(rows: map<Key, Row>, k: Key, size: int): (r: Row)
    ensures r.refcount == Count(rows, k) + 1 && r.zeroedAt.None?
    ensures r.bytes >= size && (k in rows ==> r.bytes >= rows[k].bytes)
    ensures r.bytes == size || (k in rows && r.bytes == rows[k].bytes)
  {
    if k in rows then Row(rows[k].refcount + 1, None, Greatest(rows[k].bytes, size)) else Row(1, None, size)
  }

  datatype Push = Push(tenant: string, project: string, repository: string, manifest: string)

  function EdgeOf(p: Push, digest: string): Edge {
    Edge(p.tenant, p.manifest, digest)
  }

  function PathOf(p: Push, digest: string): Path {
    Path(p.tenant, p.project, p.repository, digest)
  }

  function AddOne(s: Tables, p: Push, b: Blob): Tables {
    var t := s.(paths := s.paths + {PathOf(p, b.digest)});
    if EdgeOf(p, b.digest) in s.edges then t
    else
      var k := Key(p.tenant, b.digest);
      t.(edges := s.edges + {EdgeOf(p, b.digest)}, rows := s.rows[k := Bumped(s.rows, k, b.size)])
  }

  function Added(s: Tables, p: Push, blobs: seq<Blob>): Tables {
    if blobs == [] then s else AddOne(Added(s, p, blobs[..|blobs| - 1]), p, blobs[|blobs| - 1])
  }

  lemma AddOneConsistent(s: Tables, p: Push, b: Blob)
    requires Consistent(s)
    ensures Consistent(AddOne(s, p, b))
  {
    var t := AddOne(s, p, b);
    var e, k := EdgeOf(p, b.digest), Key(p.tenant, b.digest);
    if e !in s.edges {
      forall j: Key
        ensures Count(t.rows, j) == |Manifests(t.edges, j)|
      {
        ManifestsPlus(s.edges, e, j);
        assert Count(s.rows, j) == |Manifests(s.edges, j)|;
      }
    }
    assert PathOf(p, b.digest) in t.paths;
    forall f | f in t.edges
      ensures HasPath(t.paths, Key(f.tenant, f.blob))
    {
      if f in s.edges {
        assert HasPath(s.paths, Key(f.tenant, f.blob));
      }
    }
  }

  lemma {:induction false} AddedConsistent(s: Tables, p: Push, blobs: seq<Blob>)
    requires Consistent(s)
    ensures Consistent(Added(s, p, blobs))
  {
    if blobs != [] {
      AddedConsistent(s, p, blobs[..|blobs| - 1]);
      AddOneConsistent(Added(s, p, blobs[..|blobs| - 1]), p, blobs[|blobs| - 1]);
    }
  }

  ghost predicate Lists(blobs: seq<Blob>, digest: string) {
    exists i :: 0 <= i < |blobs| && blobs[i].digest == digest
  }

  lemma ListsLast(blobs: seq<Blob>, digest: string)
    requires blobs != []
    ensures Lists(blobs, digest) <==> Lists(blobs[..|blobs| - 1], digest) || blobs[|blobs| - 1].digest == digest
  {
    var front := blobs[..|blobs| - 1];
    if Lists(front, digest) {
      var i :| 0 <= i < |front| && front[i].digest == digest;
      assert blobs[i].digest == digest;
    }
    if Lists(blobs, digest) && blobs[|blobs| - 1].digest != digest {
      var i :| 0 <= i < |blobs| && blobs[i].digest == digest;
      assert front[i].digest == digest;
    }
  }

  /** The size given where the digest is listed first. */
  ghost function FirstSize(blobs: seq<Blob>, digest: string): int
    requires Lists(blobs, digest)
  {
    var front := blobs[..|blobs| - 1];
    if Lists(front, digest) then FirstSize(front, digest)
    else blobs[|blobs| - 1].size
  }

  /**
   * What a push does, blob by blob: it records the edge and the path of every listed
   * blob and counts a blob up once, and only if the manifest did not refer to it yet.
   */
  lemma {:induction false} AddedExactly(s: Tables, p: Push, blobs: seq<Blob>)
    ensures forall e :: e in Added(s, p, blobs).edges <==>
            e in s.edges || (e.tenant == p.tenant && e.manifest == p.manifest && Lists(blobs, e.blob))
    ensures forall q :: q in Added(s, p, blobs).paths <==>
            q in s.paths || (q == PathOf(p, q.blob) && Lists(blobs, q.blob))
    ensures forall k: Key :: Fresh(s, p, blobs, k) ==>
            k in Added(s, p, blobs).rows && Added(s, p, blobs).rows[k] == Bumped(s.rows, k, FirstSize(blobs, k.blob))
    ensures forall k: Key :: !Fresh(s, p, blobs, k) ==>
            (k in Added(s, p, blobs).rows <==> k in s.rows)
            && (k in s.rows ==> Added(s, p, blobs).rows[k] == s.rows[k])
    ensures Added(s, p, blobs).reaps == s.reaps && Added(s, p, blobs).drift == s.drift
  {
    forall e: Edge {
      AddedEdge(s, p, blobs, e);
    }
    forall q: Path {
      AddedPath(s, p, blobs, q);
    }
    forall k: Key
      ensures Fresh(s, p, blobs, k) ==>
              k in Added(s, p, blobs).rows && Added(s, p, blobs).rows[k] == Bumped(s.rows, k, FirstSize(blobs, k.blob))
      ensures !Fresh(s, p, blobs, k) ==> SameRow(Added(s, p, blobs).rows, s.rows, k)
    {
      AddedRow(s, p, blobs, k);
    }
    AddedLogs(s, p, blobs);
  }

  ghost predicate SameRow(a: map<Key, Row>, b: map<Key, Row>, k: Key) {
    (k in a <==> k in b) && (k in a ==> a[k] == b[k])
  }

  lemma {:induction false} AddedEdge(s: Tables, p: Push, blobs: seq<Blob>, e: Edge)
    ensures e in Added(s, p, blobs).edges <==>
            e in s.edges || (e.tenant == p.tenant && e.manifest == p.manifest && Lists(blobs, e.blob))
  {
    if blobs != [] {
      AddedEdge(s, p, blobs[..|blobs| - 1], e);
      ListsLast(blobs, e.blob);
    }
  }

  lemma {:induction false} AddedPath(s: Tables, p: Push, blobs: seq<Blob>, q: Path)
    ensures q in Added(s, p, blobs).paths <==> q in s.paths || (q == PathOf(p, q.blob) && Lists(blobs, q.blob))
  {
    if blobs != [] {
      AddedPath(s, p, blobs[..|blobs| - 1], q);
      ListsLast(blobs, q.blob);
    }
  }

  lemma {:induction false} AddedRow(s: Tables, p: Push, blobs: seq<Blob>, k: Key)
    ensures Fresh(s, p, blobs, k) ==>
            k in Added(s, p, blobs).rows && Added(s, p, blobs).rows[k] == Bumped(s.rows, k, FirstSize(blobs, k.blob))
    ensures !Fresh(s, p, blobs, k) ==> SameRow(Added(s, p, blobs).rows, s.rows, k)
  {
    if blobs != [] {
      AddedRow(s, p, blobs[..|blobs| - 1], k);
      AddedEdge(s, p, blobs[..|blobs| - 1], EdgeOf(p, k.blob));
      ListsLast(blobs, k.blob);
    }
  }

  lemma {:induction false} AddedLogs(s: Tables, p: Push, blobs: seq<Blob>)
    ensures Added(s, p, blobs).reaps == s.reaps && Added(s, p, blobs).drift == s.drift
  {
    if blobs != [] {
      AddedLogs(s, p, blobs[..|blobs| - 1]);
    }
  }

  /** The push lists the blob and the manifest did not refer to it before. */
  ghost predicate Fresh(s: Tables, p: Push, blobs: seq<Blob>, k: Key) {
    k.tenant == p.tenant && Lists(blobs, k.blob) && EdgeOf(p, k.blob) !in s.edges
  }

  ghost predicate AlreadyThere(s: Tables, p: Push, blobs: seq<Blob>) {
    forall i :: 0 <= i < |blobs| ==> EdgeOf(p, blobs[i].digest) in s.edges && PathOf(p, blobs[i].digest) in s.paths
  }

  lemma {:induction false} AddingWhatIsThere(s: Tables, p: Push, blobs: seq<Blob>)
    requires AlreadyThere(s, p, blobs)
    ensures Added(s, p, blobs) == s
  {
    if blobs != [] {
      AddingWhatIsThere(s, p, blobs[..|blobs| - 1]);
      var d := blobs[|blobs| - 1].digest;
      assert s.paths + {PathOf(p, d)} == s.paths;
    }
  }

  /** Pushing the same manifest again changes nothing at all. */
  lemma PushTwiceIsPushOnce(s: Tables, p: Push, blobs: seq<Blob>)
    ensures Added(Added(s, p, blobs), p, blobs) == Added(s, p, blobs)
  {
    AddedExactly(s, p, blobs);
    var t := Added(s, p, blobs);
    forall i | 0 <= i < |blobs|
      ensures EdgeOf(p, blobs[i].digest) in t.edges && PathOf(p, blobs[i].digest) in t.paths
    {
      assert Lists(blobs, blobs[i].digest);
    }
    AddingWhatIsThere(t, p, blobs);
  }

  // ---- A delete ----

  function Decremented(row: Row, now: int): Row {
    if row.refcount > 0
        then Row(row.refcount - 1, if row.refcount - 1 == 0 then Some(now) else row.zeroedAt, row.bytes) else row
  }

  function EdgesOf(edges: set<Edge>, tenant: string, manifest: string): set<Edge> {
    set e | e in edges && e.tenant == tenant && e.manifest == manifest
  }

  /** Each row whose edge goes away is counted down once. */
  function Removed(s: Tables, tenant: string, manifest: string, now: int): Tables {
    var rows := map k | k in s.rows ::
        if k.tenant == tenant && Edge(tenant, manifest, k.blob) in s.edges then Decremented(s.rows[k], now)
        else s.rows[k];
    s.(edges := s.edges - EdgesOf(s.edges, tenant, manifest), rows := rows)
  }

  /**
   * A delete takes away the edges of the manifest and nothing else. A blob it had an edge to
   * is counted down by one, if there is anything to count down, keeps its size, and is
   * marked as zeroed now when that was the last; every other row, the paths and the logs stay.
   */
  lemma RemovedExactly(s: Tables, tenant: string, manifest: string, now: int)
    ensures var t := Removed(s, tenant, manifest, now);
            && (forall e :: e in t.edges <==> e in s.edges && !(e.tenant == tenant && e.manifest == manifest))
            && t.rows.Keys == s.rows.Keys && t.paths == s.paths && t.reaps == s.reaps && t.drift == s.drift
            && forall k :: k in s.rows ==>
                 var was, left := s.rows[k], t.rows[k];
                 if Edge(tenant, manifest, k.blob) in s.edges && k.tenant == tenant && was.refcount > 0 then
                   && left.refcount == was.refcount - 1 && left.bytes == was.bytes
                   && left.zeroedAt == if was.refcount == 1 then Some(now) else was.zeroedAt
                 else left == was
  {
  }

  lemma ManifestsWithout(edges: set<Edge>, tenant: string, manifest: string, k: Key)
    ensures Manifests(edges - EdgesOf(edges, tenant, manifest), k) ==
            if k.tenant == tenant then Manifests(edges, k) - {manifest} else Manifests(edges, k)
    ensures k.tenant == tenant ==> (manifest in Manifests(edges, k) <==> Edge(tenant, manifest, k.blob) in edges)
  {
    var left := edges - EdgesOf(edges, tenant, manifest);
    forall m | m in Manifests(edges, k) && (k.tenant != tenant || m != manifest)
      ensures m in Manifests(left, k)
    {
      var e :| e in edges && e.tenant == k.tenant && e.blob == k.blob && e.manifest == m;
      assert e in left;
    }
    if k.tenant == tenant && manifest in Manifests(edges, k) {
      var e :| e in edges && e.tenant == k.tenant && e.blob == k.blob && e.manifest == manifest;
      assert e == Edge(tenant, manifest, k.blob);
    }
  }

  lemma RemovedConsistent(s: Tables, tenant: string, manifest: string, now: int)
    requires Consistent(s)
    ensures Consistent(Removed(s, tenant, manifest, now))
  {
    var t := Removed(s, tenant, manifest, now);
    forall k: Key
      ensures Count(t.rows, k) == |Manifests(t.edges, k)|
    {
      ManifestsWithout(s.edges, tenant, manifest, k);
      assert Count(s.rows, k) == |Manifests(s.edges, k)|;
    }
  }

  /** In a consistent state the `refcount > 0` guard never skips a decrement. */
  lemma GuardNeverSkips(s: Tables, e: Edge)
    requires Consistent(s) && e in s.edges
    ensures Key(e.tenant, e.blob) in s.rows && s.rows[Key(e.tenant, e.blob)].refcount > 0
  {
    var k := Key(e.tenant, e.blob);
    assert Edge(k.tenant, e.manifest, k.blob) in s.edges;
    LiveMeansEdge(s.edges, k);
    assert Count(s.rows, k) == |Manifests(s.edges, k)|;
  }

  /** Deleting a freshly pushed manifest gives back the edges and every count. */
  lemma DeleteUndoesPush(s: Tables, p: Push, blobs: seq<Blob>, now: int)
    requires EdgesOf(s.edges, p.tenant, p.manifest) == {}
    ensures Removed(Added(s, p, blobs), p.tenant, p.manifest, now).edges == s.edges
    ensures forall k: Key :: Count(Removed(Added(s, p, blobs), p.tenant, p.manifest, now).rows, k) == Count(s.rows, k)
  {
    AddedExactly(s, p, blobs);
    var t := Added(s, p, blobs);
    assert forall e :: e in s.edges ==> e !in EdgesOf(s.edges, p.tenant, p.manifest);
    forall k: Key
      ensures Count(Removed(t, p.tenant, p.manifest, now).rows, k) == Count(s.rows, k)
    {
      if k.tenant == p.tenant {
        assert EdgeOf(p, k.blob) !in s.edges;
        assert EdgeOf(p, k.blob) in t.edges <==> Lists(blobs, k.blob);
      }
    }
  }

  // ---- The tables in the database ----

  class Database {
    var edges: set<Edge>
    var rows: map<Key, Row>
    var paths: set<Path>
    var reaps: seq<Reap>
    var drift: seq<Drift>

    /** A reliable database answers every query and commits every transaction. */
    const reliable: bool

    function State(): Tables
      reads this
    {
      Tables(edges, rows, paths, reaps, drift)
    }

    constructor (reliable: bool)
      ensures State() == EMPTY && this.reliable == reliable
    {
      this.reliable := reliable;
      edges, rows, paths, reaps, drift := {}, map[], {}, [], [];
    }

    /** A failed transaction leaves the tables as they were. */
    method AddRefs(push: Push, blobs: seq<Blob>) returns (ok: bool)
      modifies this
      ensures State() == if ok then Added(old(State()), push, blobs) else old(State())
      ensures blobs == [] ==> ok && State() == old(State())
      ensures reliable ==> ok
    {
      if blobs == [] {
        return true;
      }
      ghost var before := State();
      var beforeEdges, beforeRows, beforePaths := edges, rows, paths;
      for i := 0 to |blobs|
        invariant State() == Added(before, push, blobs[..i])
        invariant beforeEdges == before.edges && beforeRows == before.rows && beforePaths == before.paths
        invariant reaps == before.reaps && drift == before.drift
      {
        assert blobs[..i + 1][..i] == blobs[..i];
        var b := blobs[i];
        paths := paths + {PathOf(push, b.digest)};
        if EdgeOf(push, b.digest) !in edges {
          edges := edges + {EdgeOf(push, b.digest)};
          var k := Key(push.tenant, b.digest);
          if k in rows {
            var r := rows[k];
            rows := rows[k := Row(r.refcount + 1, None, Greatest(r.bytes, b.size))];
          } else {
            rows := rows[k := Row(1, None, b.size)];
          }
        }
      }
      assert blobs[..|blobs|] == blobs;
      var committed: bool := *;
      committed := committed || reliable;
      if !committed {
        edges, rows, paths := beforeEdges, beforeRows, beforePaths;
      }
      return committed;
    }

    /** Deletes the edges, then counts the blobs they led to down one by one, in any order. */
    method RemoveRefs(tenant: string, manifest: string, now: int) returns (ok: bool, ghost skipped: nat)
      modifies this
      ensures State() == if ok then Removed(old(State()), tenant, manifest, now) else old(State())
      ensures Consistent(old(State())) ==> skipped == 0
      ensures reliable ==> ok
    {
      ghost var before := State();
      var beforeEdges, beforeRows := edges, rows;
      var todo := EdgesOf(edges, tenant, manifest);
      edges := edges - todo;
      skipped := 0;
      while todo != {}
        invariant todo <= EdgesOf(before.edges, tenant, manifest)
        invariant edges == before.edges - EdgesOf(before.edges, tenant, manifest)
        invariant paths == before.paths && reaps == before.reaps && drift == before.drift
        invariant CountedDown(before, rows, tenant, manifest, now, todo)
        invariant Consistent(before) ==> skipped == 0
        decreases |todo|
      {
        var e :| e in todo;
        CountDownStep(before, rows, tenant, manifest, now, todo, e);
        todo := todo - {e};
        var k := Key(tenant, e.blob);
        if k in rows && rows[k].refcount > 0 {
          rows := rows[k := Decremented(rows[k], now)];
        } else {
          skipped := skipped + 1;
          SkipsOnlyDrift(before, e);
        }
      }
      CountedDownAll(before, rows, tenant, manifest, now);
      var committed: bool := *;
      committed := committed || reliable;
      if !committed {
        edges, rows := beforeEdges, beforeRows;
      }
      return committed, skipped;
    }
  }

  lemma SkipsOnlyDrift(s: Tables, e: Edge)
    requires e in s.edges
    ensures Consistent(s) ==> Key(e.tenant, e.blob) in s.rows && s.rows[Key(e.tenant, e.blob)].refcount > 0
  {
    if Consistent(s) {
      GuardNeverSkips(s, e);
    }
  }

  lemma CountedDownAll(s: Tables, rows: map<Key, Row>, tenant: string, manifest: string, now: int)
    requires CountedDown(s, rows, tenant, manifest, now, {})
    ensures rows == Removed(s, tenant, manifest, now).rows
  {
    forall k | k in rows
      ensures rows[k] == Removed(s, tenant, manifest, now).rows[k]
    {
      assert DoneWith(s, tenant, manifest, k, {}) <==> k.tenant == tenant && Edge(tenant, manifest, k.blob) in s.edges;
    }
  }

  /** The rows after counting down every removed edge but those in `todo`. */
  ghost predicate CountedDown(s: Tables, rows: map<Key, Row>, tenant: string, manifest: string, now: int,
                              todo: set<Edge>)
  {
    && rows.Keys == s.rows.Keys
    && (forall k :: k in rows && DoneWith(s, tenant, manifest, k, todo) ==> rows[k] == Decremented(s.rows[k], now))
    && (forall k :: k in rows && !DoneWith(s, tenant, manifest, k, todo) ==> rows[k] == s.rows[k])
  }

  ghost predicate DoneWith(s: Tables, tenant: string, manifest: string, k: Key, todo: set<Edge>) {
    k.tenant == tenant && Edge(tenant, manifest, k.blob) in s.edges - todo
  }

  lemma CountDownStep(s: Tables, rows: map<Key, Row>, tenant: string, manifest: string, now: int, todo: set<Edge>,
                      e: Edge)
    requires CountedDown(s, rows, tenant, manifest, now, todo) && e in todo
             && todo <= EdgesOf(s.edges, tenant, manifest)
    ensures e == Edge(tenant, manifest, e.blob) && e in s.edges
    ensures Key(tenant, e.blob) in rows <==> Key(tenant, e.blob) in s.rows
    ensures Key(tenant, e.blob) in rows ==>
              rows[Key(tenant, e.blob)] == s.rows[Key(tenant, e.blob)]
              && CountedDown(s, rows[Key(tenant, e.blob) := Decremented(rows[Key(tenant, e.blob)], now)], tenant,
                  manifest, now, todo - {e})
    ensures Key(tenant, e.blob) !in rows || rows[Key(tenant, e.blob)].refcount == 0 ==>
            CountedDown(s, rows, tenant, manifest, now, todo - {e})
  {
    var k := Key(tenant, e.blob);
    assert e in EdgesOf(s.edges, tenant, manifest);
    assert !DoneWith(s, tenant, manifest, k, todo) && DoneWith(s, tenant, manifest, k, todo - {e});
    assert forall j: Key :: j != k ==>
           (DoneWith(s, tenant, manifest, j, todo - {e}) <==> DoneWith(s, tenant, manifest, j, todo));
  }
}
