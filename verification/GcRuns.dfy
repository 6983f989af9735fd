/**
 * The online collector as a whole (crates/specton-gc/src): any number of pushes, deletes,
 * uploads, reapers and reconcilers, interleaved transaction by transaction.
 *
 * A reaper holds the candidates it selected and reaps them one transaction at a time;
 * a reconciler holds the snapshot it took and works through it row by row. What either
 * holds may be out of date by the time it is used.
 */
module GcRuns {
  import opened Common
  import opened StoragePaths
  import opened GcTables
  import opened GcReaper
  import R = GcReconciler

  /** The candidates left in the current batch, and totals over all cycles so far. */
  datatype Reaper = Reaper(pending: seq<Candidate>, blobs: nat, bytes: int, errors: nat)

  datatype Walker = Walker(pending: seq<R.Seen>, fix: bool)

  datatype World = World(tables: Tables, objects: set<Place>, reapers: seq<Reaper>, walkers: seq<Walker>)

  datatype Action =
    | Upload(object: Place)
    | AddRefs(push: Push, blobs: seq<Blob>)
    | RemoveRefs(tenant: string, manifest: string, at: int)
    | Select(reaper: nat, cs: seq<Candidate>, at: int, grace: nat, batch: nat, locked: set<Key>)
    | ReapNext(reaper: nat, outcome: Outcome)
    | Halt(reaper: nat)
    | Look(walker: nat, seen: seq<R.Seen>, fix: bool, limit: nat)
    | ExamineNext(walker: nat, at: int)

  // ---- Steps ----

  function Done(r: Reaper, o: Outcome): Reaper
    requires r.pending != []
  {
    var c, rest := r.pending[0], r.(pending := r.pending[1..]);
    match o
    case Gone => rest.(blobs := r.blobs + 1, bytes := r.bytes + c.bytes)
    case Skipped => rest
    case Failed => rest.(errors := r.errors + 1)
  }

  /** Record and correct one row, or break off in between. */
  ghost predicate RowStep(s: Tables, t: Tables, x: R.Seen, fix: bool, now: int) {
    || t == R.Examine(s, x, fix, now)
    || (R.Classify(x).Some? && t == R.Recorded(s, x, R.Classify(x).value))
  }

  ghost predicate ReaperStep(w: World, a: Action, v: World)
    requires a.Select? || a.ReapNext? || a.Halt?
  {
    && a.reaper < |w.reapers| && v.walkers == w.walkers
    && var r := w.reapers[a.reaper];
    match a
    case Select(i, cs, at, grace, batch, locked) =>
      && r.pending == [] && Selected(w.tables.rows, at, grace, batch, locked, cs)
      && v == w.(reapers := w.reapers[i := r.(pending := cs)])
    case ReapNext(i, o) =>
      && r.pending != []
      && ReapStep(w.tables, w.objects, v.tables, v.objects, r.pending[0].key, r.pending[0].bytes, o)
      && v.reapers == w.reapers[i := Done(r, o)]
    case Halt(i) => v == w.(reapers := w.reapers[i := r.(pending := [])])
  }

  ghost predicate WalkerStep(w: World, a: Action, v: World)
    requires a.Look? || a.ExamineNext?
  {
    && a.walker < |w.walkers| && v.reapers == w.reapers && v.objects == w.objects
    && var x := w.walkers[a.walker];
    match a
    case Look(j, seen, fix, limit) =>
      R.Snapshot(w.tables, limit, seen) && v.tables == w.tables && v.walkers == w.walkers[j := Walker(seen, fix)]
    case ExamineNext(j, at) =>
      && x.pending != [] && RowStep(w.tables, v.tables, x.pending[0], x.fix, at)
      && v.walkers == w.walkers[j := x.(pending := x.pending[1..])]
  }

  ghost predicate Next(w: World, a: Action, v: World) {
    match a
    case Upload(key) => v == w.(objects := w.objects + {key})
    case AddRefs(push, blobs) => v == w.(tables := Added(w.tables, push, blobs))
    case RemoveRefs(tenant, manifest, at) => v == w.(tables := Removed(w.tables, tenant, manifest, at))
    case Select(_, _, _, _, _, _) => ReaperStep(w, a, v)
    case ReapNext(_, _) => ReaperStep(w, a, v)
    case Halt(_) => ReaperStep(w, a, v)
    case Look(_, _, _, _) => WalkerStep(w, a, v)
    case ExamineNext(_, _) => WalkerStep(w, a, v)
  }

  ghost predicate Runs(ws: seq<World>, acts: seq<Action>) {
    |ws| == |acts| + 1 && forall i :: 0 <= i < |acts| ==> Next(ws[i], acts[i], ws[i + 1])
  }

  /** Empty tables, idle reapers and reconcilers; the store may hold anything. */
  ghost predicate Start(w: World) {
    && w.tables == EMPTY
    && (forall i :: 0 <= i < |w.reapers| ==> w.reapers[i] == Reaper([], 0, 0, 0))
    && (forall j :: 0 <= j < |w.walkers| ==> w.walkers[j].pending == [])
  }

  // ---- The invariant ----

  ghost function SumBlobs(rs: seq<Reaper>): int {
    if rs == [] then 0 else SumBlobs(rs[..|rs| - 1]) + rs[|rs| - 1].blobs
  }

  ghost function SumBytes(rs: seq<Reaper>): int {
    if rs == [] then 0 else SumBytes(rs[..|rs| - 1]) + rs[|rs| - 1].bytes
  }

  /** The reapers' totals are the rows and bytes of the reap log. */
  ghost predicate Booked(w: World) {
    SumBlobs(w.reapers) == |w.tables.reaps| && SumBytes(w.reapers) == TotalBytes(w.tables.reaps)
  }

  /** No reconciler holds a row that showed drift. */
  ghost predicate NoDriftSeen(w: World) {
    forall j, i :: 0 <= j < |w.walkers| && 0 <= i < |w.walkers[j].pending| ==> R.Classify(w.walkers[j].pending[i]).None?
  }

  ghost predicate Inv(w: World) {
    Consistent(w.tables) && Booked(w) && NoDriftSeen(w)
  }

  lemma {:induction false} IdleSums(rs: seq<Reaper>)
    requires forall i :: 0 <= i < |rs| ==> rs[i] == Reaper([], 0, 0, 0)
    ensures SumBlobs(rs) == 0 && SumBytes(rs) == 0
  {
    if rs != [] {
      IdleSums(rs[..|rs| - 1]);
    }
  }

  lemma {:induction false} SumsUpdate(rs: seq<Reaper>, i: nat, r: Reaper)
    requires i < |rs|
    ensures SumBlobs(rs[i := r]) == SumBlobs(rs) - rs[i].blobs + r.blobs
    ensures SumBytes(rs[i := r]) == SumBytes(rs) - rs[i].bytes + r.bytes
  {
    var n := |rs| - 1;
    if i < n {
      SumsUpdate(rs[..n], i, r);
      assert rs[i := r][..n] == rs[..n][i := r];
    } else {
      assert rs[i := r][..n] == rs[..n];
    }
  }

  lemma StartHolds(w: World)
    requires Start(w)
    ensures Inv(w)
  {
    EmptyIsConsistent();
    IdleSums(w.reapers);
  }

  lemma ReaperKeepsInv(w: World, a: Action, v: World)
    requires Inv(w) && (a.Select? || a.ReapNext? || a.Halt?) && ReaperStep(w, a, v)
    ensures Inv(v)
  {
    var r := w.reapers[a.reaper];
    match a {
      case Select(i, cs, _, _, _, _) => SumsUpdate(w.reapers, i, r.(pending := cs));
      case Halt(i) => SumsUpdate(w.reapers, i, r.(pending := []));
      case ReapNext(i, o) =>
        var c := r.pending[0];
        SumsUpdate(w.reapers, i, Done(r, o));
        ReapIsSafe(w.tables, w.objects, v.tables, v.objects, c.key, c.bytes, o);
        if o.Gone? {
          assert v.tables.reaps[..|w.tables.reaps|] == w.tables.reaps;
        }
    }
  }

  lemma WalkerKeepsInv(w: World, a: Action, v: World)
    requires Inv(w) && (a.Look? || a.ExamineNext?) && WalkerStep(w, a, v)
    ensures Inv(v) && v.tables == w.tables
  {
    if a.Look? {
      forall i | 0 <= i < |a.seen|
        ensures R.Classify(a.seen[i]).None?
      {
        R.ConsistentIsClean(w.tables, a.seen[i].key);
      }
    } else {
      assert R.Classify(w.walkers[a.walker].pending[0]).None?;
    }
  }

  lemma StepKeepsInv(w: World, a: Action, v: World)
    requires Inv(w) && Next(w, a, v)
    ensures Inv(v)
  {
    match a {
      case Upload(_) =>
      case AddRefs(push, blobs) =>
        AddedConsistent(w.tables, push, blobs);
        AddedExactly(w.tables, push, blobs);
      case RemoveRefs(tenant, manifest, at) => RemovedConsistent(w.tables, tenant, manifest, at);
      case Select(_, _, _, _, _, _) => ReaperKeepsInv(w, a, v);
      case ReapNext(_, _) => ReaperKeepsInv(w, a, v);
      case Halt(_) => ReaperKeepsInv(w, a, v);
      case Look(_, _, _, _) => WalkerKeepsInv(w, a, v);
      case ExamineNext(_, _) => WalkerKeepsInv(w, a, v);
    }
  }

  /**
   * In every interleaving from empty tables, at every point: each count equals the
   * number of manifests with an edge to the blob, `zeroed_at` is set exactly at zero,
   * every edge has a path, the reapers' totals are those of the reap log, and no
   * reconciler has seen any drift.
   */
  lemma {:induction false} EveryRunKeepsInv(ws: seq<World>, acts: seq<Action>, n: nat)
    requires Runs(ws, acts) && Inv(ws[0]) && n < |ws|
    ensures Inv(ws[n])
  {
    if n > 0 {
      EveryRunKeepsInv(ws, acts, n - 1);
      assert Next(ws[n - 1], acts[n - 1], ws[n - 1 + 1]);
      StepKeepsInv(ws[n - 1], acts[n - 1], ws[n]);
    }
  }

  /** With several reapers at work, what one reap may and may not do at any point of any run. */
  lemma EveryReapIsSafe(ws: seq<World>, acts: seq<Action>, n: nat, i: nat, o: Outcome)
    requires Runs(ws, acts) && Start(ws[0]) && n < |acts| && acts[n] == ReapNext(i, o)
    ensures i < |ws[n].reapers| && ws[n].reapers[i].pending != []
    ensures o.Gone? ==>
              var k := ws[n].reapers[i].pending[0].key;
              && (forall m :: Edge(k.tenant, m, k.blob) !in ws[n].tables.edges)
              && PathsOf(ws[n + 1].tables.paths, k) == {}
              && ws[n + 1].objects !! ObjectKeys(ws[n].tables.paths, k)
    ensures !o.Gone? ==> ws[n + 1].tables == ws[n].tables
    ensures SumBlobs(ws[n + 1].reapers) == |ws[n + 1].tables.reaps|
    ensures SumBytes(ws[n + 1].reapers) == TotalBytes(ws[n + 1].tables.reaps)
  {
    StartHolds(ws[0]);
    EveryRunKeepsInv(ws, acts, n);
    EveryRunKeepsInv(ws, acts, n + 1);
    assert Next(ws[n], acts[n], ws[n + 1]);
    var c := ws[n].reapers[i].pending[0];
    ReapIsSafe(ws[n].tables, ws[n].objects, ws[n + 1].tables, ws[n + 1].objects, c.key, c.bytes, o);
  }

  /** Reconcilers, correcting or not, write nothing in any run from empty tables. */
  lemma ReconcilersWriteNothing(ws: seq<World>, acts: seq<Action>, n: nat)
    requires Runs(ws, acts) && Start(ws[0]) && n < |acts| && (acts[n].Look? || acts[n].ExamineNext?)
    ensures ws[n + 1].tables == ws[n].tables
  {
    StartHolds(ws[0]);
    EveryRunKeepsInv(ws, acts, n);
    assert Next(ws[n], acts[n], ws[n + 1]);
    WalkerKeepsInv(ws[n], acts[n], ws[n + 1]);
  }

  /** In every run, a delete finds a positive count for each edge it removes. */
  lemma EveryDeleteDecrements(ws: seq<World>, acts: seq<Action>, n: nat, e: Edge)
    requires Runs(ws, acts) && Start(ws[0]) && n < |acts| && acts[n].RemoveRefs?
    requires e in EdgesOf(ws[n].tables.edges, acts[n].tenant, acts[n].manifest)
    ensures Key(e.tenant, e.blob) in ws[n + 1].tables.rows
    ensures Count(ws[n + 1].tables.rows, Key(e.tenant, e.blob)) == Count(ws[n].tables.rows, Key(e.tenant, e.blob)) - 1
  {
    StartHolds(ws[0]);
    EveryRunKeepsInv(ws, acts, n);
    assert Next(ws[n], acts[n], ws[n + 1]);
    GuardNeverSkips(ws[n].tables, e);
    assert e == Edge(acts[n].tenant, acts[n].manifest, e.blob);
  }

  // ---- Live blobs stay in storage ----

  /** The path is recorded and its object stored. */
  ghost predicate Kept(w: World, p: Path) {
    p in w.tables.paths && ObjectKey(p) in w.objects
  }

  /** The blob a reaper is about to try. */
  ghost predicate Tries(w: World, a: Action, k: Key) {
    && a.ReapNext? && a.reaper < |w.reapers|
    && w.reapers[a.reaper].pending != [] && w.reapers[a.reaper].pending[0].key == k
    && AtZero(w.tables, k)
  }

  /** The action reaps a blob that shares the object of the path. */
  ghost predicate Takes(w: World, a: Action, p: Path) {
    exists k :: Tries(w, a, k) && SharesObject(w.tables.paths, k, p)
  }

  lemma StepKeepsObject(w: World, a: Action, v: World, e: Edge, p: Path)
    requires Inv(w) && Next(w, a, v) && Kept(w, p) && e in w.tables.edges && p.tenant == e.tenant && p.blob == e.blob
    ensures !Takes(w, a, p) ==> Kept(v, p)
    ensures Takes(w, a, p) && a.outcome.Gone? ==> ObjectKey(p) !in v.objects
  {
    if a.AddRefs? {
      AddedExactly(w.tables, a.push, a.blobs);
    } else if a.ReapNext? {
      var c := w.reapers[a.reaper].pending[0];
      LiveObjectsSurvive(w.tables, w.objects, v.tables, v.objects, c.key, c.bytes, a.outcome, e, p);
      assert AtZero(w.tables, c.key) ==> Tries(w, a, c.key);
    } else if a.Look? || a.ExamineNext? {
      WalkerKeepsInv(w, a, v);
    }
  }

  lemma {:induction false} LiveBlobsStay(ws: seq<World>, acts: seq<Action>, n: nat, e: Edge, p: Path)
    requires Runs(ws, acts) && Inv(ws[0]) && n < |ws|
    requires forall i :: 0 <= i < |ws| ==> e in ws[i].tables.edges
    requires p.tenant == e.tenant && p.blob == e.blob && Kept(ws[0], p)
    requires forall i :: 0 <= i < n ==> !Takes(ws[i], acts[i], p)
    ensures Kept(ws[n], p)
  {
    if n > 0 {
      LiveBlobsStay(ws, acts, n - 1, e, p);
      EveryRunKeepsInv(ws, acts, n - 1);
      assert Next(ws[n - 1], acts[n - 1], ws[n - 1 + 1]);
      StepKeepsObject(ws[n - 1], acts[n - 1], ws[n], e, p);
    }
  }

  /**
   * While some manifest keeps its edge to a blob, its object stays at a recorded path
   * through every interleaving exactly when no reap takes a blob sharing the object.
   * (A failed reap of such a blob may or may not have deleted it.)
   */
  lemma LiveBlobsStayExactly(ws: seq<World>, acts: seq<Action>, e: Edge, p: Path)
    requires Runs(ws, acts) && Inv(ws[0])
    requires forall i :: 0 <= i < |ws| ==> e in ws[i].tables.edges
    requires p.tenant == e.tenant && p.blob == e.blob && Kept(ws[0], p)
    requires forall i :: 0 <= i < |acts| && Takes(ws[i], acts[i], p) ==> acts[i].outcome.Gone?
    ensures (forall i :: 0 <= i < |ws| ==> Kept(ws[i], p)) <==>
            (forall i :: 0 <= i < |acts| ==> !Takes(ws[i], acts[i], p))
  {
    if forall i :: 0 <= i < |acts| ==> !Takes(ws[i], acts[i], p) {
      forall i | 0 <= i < |ws|
        ensures Kept(ws[i], p)
      {
        LiveBlobsStay(ws, acts, i, e, p);
      }
    }
    if forall i :: 0 <= i < |ws| ==> Kept(ws[i], p) {
      forall i | 0 <= i < |acts|
        ensures !Takes(ws[i], acts[i], p)
      {
        EveryRunKeepsInv(ws, acts, i);
        assert Next(ws[i], acts[i], ws[i + 1]);
        StepKeepsObject(ws[i], acts[i], ws[i + 1], e, p);
        assert Kept(ws[i + 1], p);
      }
    }
  }

  /** So it stays whenever no two blobs are recorded with the same object. */
  lemma OneBlobKeepsLiveBlobs(ws: seq<World>, acts: seq<Action>, n: nat, e: Edge, p: Path)
    requires Runs(ws, acts) && Inv(ws[0]) && n < |ws|
    requires forall i :: 0 <= i < |ws| ==> e in ws[i].tables.edges && OneBlobPerObject(ws[i].tables.paths)
    requires p.tenant == e.tenant && p.blob == e.blob && Kept(ws[0], p)
    ensures Kept(ws[n], p)
    decreases n
  {
    if n > 0 {
      OneBlobKeepsLiveBlobs(ws, acts, n - 1, e, p);
      EveryRunKeepsInv(ws, acts, n - 1);
      assert Next(ws[n - 1], acts[n - 1], ws[n - 1 + 1]);
      LiveIsNotTaken(ws[n - 1], acts[n - 1], e, p);
      StepKeepsObject(ws[n - 1], acts[n - 1], ws[n], e, p);
    }
  }

  lemma LiveIsNotTaken(w: World, a: Action, e: Edge, p: Path)
    requires Inv(w) && e in w.tables.edges && p in w.tables.paths && p.tenant == e.tenant && p.blob == e.blob
    requires OneBlobPerObject(w.tables.paths)
    ensures !Takes(w, a, p)
  {
    forall k | Tries(w, a, k)
      ensures !SharesObject(w.tables.paths, k, p)
    {
      AtZeroHasNoEdge(w.tables, k);
      LiveMeansEdge(w.tables.edges, k);
      assert Edge(e.tenant, e.manifest, e.blob) == e;
      OneBlobSharesNothing(w.tables.paths, k, p);
    }
  }

  // ---- Uploads and reaps ----

  /** The action reaps a blob whose recorded paths include the object. */
  ghost predicate Deletes(w: World, a: Action, o: Place) {
    exists k :: Tries(w, a, k) && o in ObjectKeys(w.tables.paths, k)
  }

  lemma StepObject(w: World, a: Action, v: World, o: Place)
    requires Next(w, a, v) && a != Upload(o) && (Deletes(w, a, o) ==> a.outcome.Gone?)
    ensures o in v.objects <==> o in w.objects && !Deletes(w, a, o)
  {
    if a.ReapNext? {
      var k := w.reapers[a.reaper].pending[0].key;
      assert AtZero(w.tables, k) ==> Tries(w, a, k);
    }
  }

  /**
   * An uploaded object is still there later exactly when no reap of a blob recorded at
   * its path came in between. (Again, a failed one may or may not have deleted it.)
   */
  lemma {:induction false} UploadStaysExactly(ws: seq<World>, acts: seq<Action>, n: nat, o: Place)
    requires Runs(ws, acts) && o in ws[0].objects && n < |ws|
    requires forall i :: 0 <= i < n ==> acts[i] != Upload(o) && (Deletes(ws[i], acts[i], o) ==> acts[i].outcome.Gone?)
    ensures o in ws[n].objects <==> forall i :: 0 <= i < n ==> !Deletes(ws[i], acts[i], o)
  {
    if n > 0 {
      UploadStaysExactly(ws, acts, n - 1, o);
      assert Next(ws[n - 1], acts[n - 1], ws[n - 1 + 1]);
      StepObject(ws[n - 1], acts[n - 1], ws[n], o);
    }
  }

  // ---- The grace period ----

  /** The action deletes the last manifest that refers to the blob. */
  ghost predicate Zeroes(w: World, a: Action, k: Key) {
    a.RemoveRefs? && a.tenant == k.tenant && Manifests(w.tables.edges, k) == {a.manifest}
  }

  ghost predicate NoZeroing(ws: seq<World>, acts: seq<Action>, n: nat, k: Key)
    requires Runs(ws, acts) && n <= |acts|
  {
    forall i :: 0 <= i < n ==> !Zeroes(ws[i], acts[i], k)
  }

  /** How one step changes when a blob went to zero. */
  lemma StepZeroedAt(w: World, a: Action, v: World, k: Key)
    requires Inv(w) && Next(w, a, v) && AtZero(v.tables, k)
    ensures if Zeroes(w, a, k) then v.tables.rows[k].zeroedAt == Some(a.at)
            else AtZero(w.tables, k) && v.tables.rows[k] == w.tables.rows[k]
  {
    match a {
      case Upload(_) =>
      case AddRefs(push, blobs) => AddedExactly(w.tables, push, blobs);
      case RemoveRefs(tenant, manifest, at) => RemoveZeroedAt(w.tables, tenant, manifest, at, k);
      case Select(_, _, _, _, _, _) =>
      case ReapNext(_, _) =>
      case Halt(_) =>
      case Look(_, _, _, _) => WalkerKeepsInv(w, a, v);
      case ExamineNext(_, _) => WalkerKeepsInv(w, a, v);
    }
  }

  lemma RemoveZeroedAt(s: Tables, tenant: string, manifest: string, at: int, k: Key)
    requires Consistent(s) && AtZero(Removed(s, tenant, manifest, at), k)
    ensures if tenant == k.tenant
            && Manifests(s.edges, k) == {manifest} then Removed(s, tenant, manifest, at).rows[k].zeroedAt == Some(at)
            else AtZero(s, k) && Removed(s, tenant, manifest, at).rows[k] == s.rows[k]
  {
    ManifestsWithout(s.edges, tenant, manifest, k);
    RemovedConsistent(s, tenant, manifest, at);
    assert Count(s.rows, k) == |Manifests(s.edges, k)|;
    assert Count(Removed(s, tenant, manifest, at).rows, k) == |Manifests(Removed(s, tenant, manifest, at).edges, k)|;
    if tenant == k.tenant && manifest in Manifests(s.edges, k) {
      assert Manifests(s.edges, k) - {manifest} == {};
      assert Manifests(s.edges, k) == {manifest};
    }
  }

  /**
   * The reaper checks the grace period only when it selects. From a selection at time
   * `now` to a later reap, a blob found at zero has been there since before the grace
   * period exactly when its last reference was not deleted in between.
   */
  lemma GraceHoldsExactly(ws: seq<World>, acts: seq<Action>, k: Key, now: int, grace: nat)
    requires Runs(ws, acts) && Inv(ws[0]) && Eligible(ws[0].tables.rows, k, now, grace)
    requires forall i :: 0 <= i < |acts| && acts[i].RemoveRefs? ==> acts[i].at >= now
    requires AtZero(ws[|acts|].tables, k)
    ensures ws[|acts|].tables.rows[k].zeroedAt.Some?
    ensures ws[|acts|].tables.rows[k].zeroedAt.value < now - grace <==> NoZeroing(ws, acts, |acts|, k)
  {
    EveryRunKeepsInv(ws, acts, |acts|);
    ZeroedSince(ws, acts, |acts|, k, now, grace);
  }

  lemma {:induction false} ZeroedSince(ws: seq<World>, acts: seq<Action>, n: nat, k: Key, now: int, grace: nat)
    requires Runs(ws, acts) && Inv(ws[0]) && Eligible(ws[0].tables.rows, k, now, grace) && n <= |acts|
    requires forall i :: 0 <= i < |acts| && acts[i].RemoveRefs? ==> acts[i].at >= now
    requires AtZero(ws[n].tables, k) && ws[n].tables.rows[k].zeroedAt.Some?
    ensures if NoZeroing(ws, acts, n, k) then ws[n].tables.rows[k] == ws[0].tables.rows[k]
            else ws[n].tables.rows[k].zeroedAt.value >= now
  {
    if n > 0 {
      EveryRunKeepsInv(ws, acts, n - 1);
      assert Next(ws[n - 1], acts[n - 1], ws[n - 1 + 1]);
      StepZeroedAt(ws[n - 1], acts[n - 1], ws[n], k);
      if Zeroes(ws[n - 1], acts[n - 1], k) {
        assert !NoZeroing(ws, acts, n, k);
      } else {
        ZeroedSince(ws, acts, n - 1, k, now, grace);
        assert NoZeroing(ws, acts, n, k) <==> NoZeroing(ws, acts, n - 1, k);
      }
    }
  }
}
