/**
 * Stored manifests and the collector (crates/specton-registry/src/main.rs,
 * crates/specton-gc/src). The registry stores a manifest in one repository and then
 * counts it; it drops it from one repository and then uncounts it. Edges know the tenant
 * and the manifest, not the repository, and a count or uncount that fails is only logged.
 *
 * Each of the four is a step of its own, so anything may come in between, and a count
 * that failed is one that never comes. What a manifest lists depends on its digest only.
 */
module GcStored {
  import opened Common
  import opened StoragePaths
  import opened GcTables
  import opened GcReaper
  import opened GcRuns

  type Contents = string -> seq<Blob>

  /** `stored` holds the manifests in storage, each with its repository. */
  datatype Registry = Registry(world: World, stored: set<Push>)

  datatype Call =
    | StoreManifest(push: Push)
    | Count(push: Push)
    | DropManifest(push: Push)
    | Uncount(push: Push, at: int)
    | Other(act: Action)

  ghost predicate CallStep(c: Contents, g: Registry, call: Call, h: Registry) {
    match call
    case StoreManifest(p) => h == g.(stored := g.stored + {p})
    case Count(p) => h.stored == g.stored && Next(g.world, AddRefs(p, c(p.manifest)), h.world)
    case DropManifest(p) => h == g.(stored := g.stored - {p})
    case Uncount(p, at) => h.stored == g.stored && Next(g.world, RemoveRefs(p.tenant, p.manifest, at), h.world)
    case Other(a) => !a.AddRefs? && !a.RemoveRefs? && h.stored == g.stored && Next(g.world, a, h.world)
  }

  ghost predicate History(c: Contents, gs: seq<Registry>, calls: seq<Call>) {
    && |gs| == |calls| + 1 && Start(gs[0].world) && gs[0].stored == {}
    && forall i :: 0 <= i < |calls| ==> CallStep(c, gs[i], calls[i], gs[i + 1])
  }

  // ---- What every history keeps ----

  ghost predicate PathsHaveRows(s: Tables) {
    forall p :: p in s.paths ==> Key(p.tenant, p.blob) in s.rows
  }

  ghost predicate Sound(g: Registry) {
    Inv(g.world) && PathsHaveRows(g.world.tables)
  }

  lemma AddOneKeepsRows(s: Tables, p: Push, b: Blob)
    requires Consistent(s) && PathsHaveRows(s)
    ensures PathsHaveRows(AddOne(s, p, b))
  {
    if EdgeOf(p, b.digest) in s.edges {
      GuardNeverSkips(s, EdgeOf(p, b.digest));
    }
  }

  lemma {:induction false} AddedKeepsRows(s: Tables, p: Push, blobs: seq<Blob>)
    requires Consistent(s) && PathsHaveRows(s)
    ensures PathsHaveRows(Added(s, p, blobs))
  {
    if blobs != [] {
      AddedKeepsRows(s, p, blobs[..|blobs| - 1]);
      AddedConsistent(s, p, blobs[..|blobs| - 1]);
      AddOneKeepsRows(Added(s, p, blobs[..|blobs| - 1]), p, blobs[|blobs| - 1]);
    }
  }

  lemma NextKeepsRows(w: World, a: Action, v: World)
    requires Inv(w) && PathsHaveRows(w.tables) && Next(w, a, v)
    ensures PathsHaveRows(v.tables)
  {
    if a.AddRefs? {
      AddedKeepsRows(w.tables, a.push, a.blobs);
    } else if a.Look? || a.ExamineNext? {
      WalkerKeepsInv(w, a, v);
    }
  }

  lemma CallKeepsSound(c: Contents, g: Registry, call: Call, h: Registry)
    requires Sound(g) && CallStep(c, g, call, h)
    ensures Sound(h)
  {
    if !call.StoreManifest? && !call.DropManifest? {
      var a := match call
        case Count(p) => AddRefs(p, c(p.manifest))
        case Uncount(p, at) => RemoveRefs(p.tenant, p.manifest, at)
        case Other(b) => b;
      StepKeepsInv(g.world, a, h.world);
      NextKeepsRows(g.world, a, h.world);
    }
  }

  lemma {:induction false} HistoryIsSound(c: Contents, gs: seq<Registry>, calls: seq<Call>, n: nat)
    requires History(c, gs, calls) && n < |gs|
    ensures Sound(gs[n])
  {
    if n == 0 {
      StartHolds(gs[0].world);
    } else {
      HistoryIsSound(c, gs, calls, n - 1);
      assert CallStep(c, gs[n - 1], calls[n - 1], gs[n - 1 + 1]);
      CallKeepsSound(c, gs[n - 1], calls[n - 1], gs[n]);
    }
  }

  // ---- Which edges there are ----

  /** Of the counts and uncounts of a manifest digest in any repository of the tenant, the last was a count. */
  ghost predicate CountedLast(calls: seq<Call>, tenant: string, manifest: string) {
    if calls == [] then false
    else
      var last := calls[|calls| - 1];
      if last.Count? && last.push.tenant == tenant && last.push.manifest == manifest then true
      else if last.Uncount? && last.push.tenant == tenant && last.push.manifest == manifest then false
      else CountedLast(calls[..|calls| - 1], tenant, manifest)
  }

  lemma OtherKeepsEdges(w: World, a: Action, v: World)
    requires Inv(w) && Next(w, a, v) && !a.AddRefs? && !a.RemoveRefs?
    ensures v.tables.edges == w.tables.edges
  {
    if a.Look? || a.ExamineNext? {
      WalkerKeepsInv(w, a, v);
    }
  }

  lemma CallEdges(c: Contents, g: Registry, call: Call, h: Registry, e: Edge)
    requires Sound(g) && CallStep(c, g, call, h)
    ensures e in h.world.tables.edges <==>
            if call.Count? && call.push.tenant == e.tenant && call.push.manifest == e.manifest then
              e in g.world.tables.edges || Lists(c(e.manifest), e.blob)
            else
              && e in g.world.tables.edges
              && !(call.Uncount? && call.push.tenant == e.tenant && call.push.manifest == e.manifest)
  {
    match call {
      case StoreManifest(_) =>
      case DropManifest(_) =>
      case Count(p) => AddedExactly(g.world.tables, p, c(p.manifest));
      case Uncount(p, at) =>
      case Other(a) => OtherKeepsEdges(g.world, a, h.world);
    }
  }

  /** An edge is there exactly when its manifest lists the blob and was counted last. */
  lemma {:induction false} EdgesFollowCalls(c: Contents, gs: seq<Registry>, calls: seq<Call>, n: nat, e: Edge)
    requires History(c, gs, calls) && n < |gs|
    ensures e in gs[n].world.tables.edges <==>
            Lists(c(e.manifest), e.blob) && CountedLast(calls[..n], e.tenant, e.manifest)
  {
    if n > 0 {
      EdgesFollowCalls(c, gs, calls, n - 1, e);
      HistoryIsSound(c, gs, calls, n - 1);
      assert CallStep(c, gs[n - 1], calls[n - 1], gs[n - 1 + 1]);
      CallEdges(c, gs[n - 1], calls[n - 1], gs[n], e);
      assert calls[..n][..n - 1] == calls[..n - 1];
    }
  }

  // ---- What reapers can delete ----

  ghost predicate ByReapers(acts: seq<Action>) {
    forall i :: 0 <= i < |acts| ==> acts[i].Select? || acts[i].ReapNext? || acts[i].Halt?
  }

  ghost predicate Loses(w: World, ws: seq<World>, acts: seq<Action>, o: Place) {
    Runs(ws, acts) && ws[0] == w && ByReapers(acts) && o !in ws[|acts|].objects
  }

  /** Reapers left to themselves can delete the object. */
  ghost predicate CanLose(w: World, o: Place) {
    exists ws, acts :: Loses(w, ws, acts, o)
  }

  /** Some row at zero has the object among its paths. */
  ghost predicate AtRisk(w: World, o: Place) {
    exists k :: AtZero(w.tables, k) && o in ObjectKeys(w.tables.paths, k)
  }

  lemma ReaperKeepsAway(w: World, a: Action, v: World, o: Place)
    requires Next(w, a, v) && (a.Select? || a.ReapNext? || a.Halt?) && !AtRisk(w, o) && o in w.objects
    ensures !AtRisk(v, o) && o in v.objects
  {
    forall k | AtZero(v.tables, k)
      ensures o !in ObjectKeys(v.tables.paths, k)
    {
      assert AtZero(w.tables, k);
      assert PathsOf(v.tables.paths, k) <= PathsOf(w.tables.paths, k);
    }
  }

  lemma {:induction false} ReapersKeepAway(ws: seq<World>, acts: seq<Action>, n: nat, o: Place)
    requires Runs(ws, acts) && ByReapers(acts) && n < |ws| && !AtRisk(ws[0], o) && o in ws[0].objects
    ensures !AtRisk(ws[n], o) && o in ws[n].objects
  {
    if n > 0 {
      ReapersKeepAway(ws, acts, n - 1, o);
      assert Next(ws[n - 1], acts[n - 1], ws[n - 1 + 1]);
      ReaperKeepsAway(ws[n - 1], acts[n - 1], ws[n], o);
    }
  }

  /** The rows but one are locked by others: the batch is that one. */
  lemma SelectsOnly(rows: map<Key, Row>, k: Key, now: int)
    requires Eligible(rows, k, now, 0)
    ensures Selected(rows, now, 0, 1, rows.Keys - {k}, [Candidate(k, rows[k].bytes)])
  {
    var c, locked := Candidate(k, rows[k].bytes), rows.Keys - {k};
    TakenNothing(rows, now, 0, locked);
    assert EligibleKeys(rows, now, 0) - locked == {k};
    TakeOldest(rows, now, 0, locked, {k}, [], k);
    assert [] + [c] == [c];
    TakenEnough(rows, now, 0, 1, locked, {k} - {k}, [c]);
  }

  function WithPending(w: World, cs: seq<Candidate>): World
    requires w.reapers != []
  {
    w.(reapers := w.reapers[0 := w.reapers[0].(pending := cs)])
  }

  lemma ReapsAtRisk(w: World, o: Place, k: Key)
    requires Inv(w) && w.reapers != [] && AtZero(w.tables, k) && o in ObjectKeys(w.tables.paths, k)
    ensures CanLose(w, o)
  {
    assert w.tables.rows[k].zeroedAt.Some?;
    var c, now := Candidate(k, w.tables.rows[k].bytes), w.tables.rows[k].zeroedAt.value + 1;
    var locked := w.tables.rows.Keys - {k};
    SelectsOnly(w.tables.rows, k, now);
    var w1, w2 := WithPending(w, []), WithPending(w, [c]);
    assert w1.(reapers := w1.reapers[0 := w1.reapers[0].(pending := [c])]) == w2;
    var w3 := World(Reaped(w.tables, k, c.bytes), w.objects - ObjectKeys(w.tables.paths, k),
                    w2.reapers[0 := Done(w2.reapers[0], Gone)], w.walkers);
    var ws, acts := [w, w1, w2, w3], [Halt(0), Select(0, [c], now, 0, 1, locked), ReapNext(0, Gone)];
    assert Next(w, acts[0], w1) && Next(w1, acts[1], w2);
    assert Next(w2, acts[2], w3);
    assert Loses(w, ws, acts, o);
  }

  /** Reapers can delete an object exactly when some row at zero has it among its paths. */
  lemma CanLoseExactly(w: World, o: Place)
    requires Inv(w) && w.reapers != [] && o in w.objects
    ensures CanLose(w, o) <==> AtRisk(w, o)
  {
    if AtRisk(w, o) {
      var k :| AtZero(w.tables, k) && o in ObjectKeys(w.tables.paths, k);
      ReapsAtRisk(w, o, k);
    } else if CanLose(w, o) {
      var ws, acts :| Loses(w, ws, acts, o);
      ReapersKeepAway(ws, acts, |acts|, o);
    }
  }

  // ---- When a stored manifest keeps its blobs ----

  /** Some manifest of the tenant that lists the blob was counted after it was last uncounted. */
  ghost predicate StillCounted(c: Contents, calls: seq<Call>, tenant: string, blob: string) {
    exists m :: Lists(c(m), blob) && CountedLast(calls, tenant, m)
  }

  lemma CountedMeansEdges(c: Contents, gs: seq<Registry>, calls: seq<Call>, tenant: string, blob: string)
    requires History(c, gs, calls)
    ensures StillCounted(c, calls, tenant, blob) <==>
            Manifests(gs[|calls|].world.tables.edges, Key(tenant, blob)) != {}
  {
    var n, edges := |calls|, gs[|calls|].world.tables.edges;
    assert calls[..n] == calls;
    LiveMeansEdge(edges, Key(tenant, blob));
    forall m: string
      ensures Edge(tenant, m, blob) in edges <==> Lists(c(m), blob) && CountedLast(calls, tenant, m)
    {
      EdgesFollowCalls(c, gs, calls, n, Edge(tenant, m, blob));
    }
  }

  /** A recorded blob is at zero exactly when no manifest has an edge to it. */
  lemma ZeroMeansNoEdges(s: Tables, p: Path)
    requires Consistent(s) && PathsHaveRows(s) && p in s.paths
    ensures AtZero(s, Key(p.tenant, p.blob)) <==> Manifests(s.edges, Key(p.tenant, p.blob)) == {}
  {
    var k := Key(p.tenant, p.blob);
    assert GcTables.Count(s.rows, k) == |Manifests(s.edges, k)|;
  }

  /** An object is at risk exactly when some path with that object is recorded for a blob without edges. */
  lemma AtRiskExactly(w: World, p: Path)
    requires Consistent(w.tables) && PathsHaveRows(w.tables)
    ensures AtRisk(w, ObjectKey(p)) <==>
            exists q :: q in w.tables.paths && Segmented(q) == Segmented(p)
              && Manifests(w.tables.edges, Key(q.tenant, q.blob)) == {}
  {
    var s := w.tables;
    if AtRisk(w, ObjectKey(p)) {
      var k :| AtZero(s, k) && ObjectKey(p) in ObjectKeys(s.paths, k);
      ReapDeletesExactly(s.paths, k, p);
      var q :| q in PathsOf(s.paths, k) && Segmented(q) == Segmented(p);
      ZeroMeansNoEdges(s, q);
      assert Key(q.tenant, q.blob) == k;
    }
    forall q | q in s.paths && Segmented(q) == Segmented(p) && Manifests(s.edges, Key(q.tenant, q.blob)) == {}
      ensures AtRisk(w, ObjectKey(p))
    {
      ZeroMeansNoEdges(s, q);
      assert q in PathsOf(s.paths, Key(q.tenant, q.blob));
      ReapDeletesExactly(s.paths, Key(q.tenant, q.blob), p);
    }
  }

  /**
   * In every history, whatever the names are: the object of a blob in any repository is safe
   * from the reapers if and only if every blob recorded with that object is still counted.
   * Whether the repository stores a manifest that lists the blob makes no difference.
   */
  lemma ObjectIsSafeExactly(c: Contents, gs: seq<Registry>, calls: seq<Call>, p: Path)
    requires History(c, gs, calls) && gs[|calls|].world.reapers != []
    requires ObjectKey(p) in gs[|calls|].world.objects
    ensures !CanLose(gs[|calls|].world, ObjectKey(p)) <==>
            forall q :: q in gs[|calls|].world.tables.paths && Segmented(q) == Segmented(p) ==>
              StillCounted(c, calls, q.tenant, q.blob)
  {
    var w := gs[|calls|].world;
    HistoryIsSound(c, gs, calls, |calls|);
    CanLoseExactly(w, ObjectKey(p));
    AtRiskExactly(w, p);
    forall q: Path
      ensures StillCounted(c, calls, q.tenant, q.blob) <==>
              Manifests(w.tables.edges, Key(q.tenant, q.blob)) != {}
    {
      CountedMeansEdges(c, gs, calls, q.tenant, q.blob);
    }
  }

  /** Where no two blobs are recorded with the same object, that is this one blob. */
  lemma StoredBlobIsSafeExactly(c: Contents, gs: seq<Registry>, calls: seq<Call>, p: Push, d: string)
    requires History(c, gs, calls) && gs[|calls|].world.reapers != []
    requires p in gs[|calls|].stored && PathOf(p, d) in gs[|calls|].world.tables.paths
    requires OneBlobPerObject(gs[|calls|].world.tables.paths) && ObjectKey(PathOf(p, d)) in gs[|calls|].world.objects
    ensures !CanLose(gs[|calls|].world, ObjectKey(PathOf(p, d))) <==> StillCounted(c, calls, p.tenant, d)
  {
    ObjectIsSafeExactly(c, gs, calls, PathOf(p, d));
  }
}
