/**
 * The reconciler (crates/specton-gc/src/reconciler.rs): compares every stored count with
 * the number of edges, records drift and, when asked to, corrects it.
 *
 * All rows are read in one snapshot; each drift record and each correction is a
 * statement of its own. `clock(i)` is `NOW()` while row `i` is being corrected.
 */
module GcReconciler {
  import opened Common
  import opened GcTables

  /** One row of the snapshot. */
  datatype Seen = Seen(key: Key, observed: Option<nat>, edges: nat)

  function KnownKeys(s: Tables): set<Key> {
    s.rows.Keys + set e | e in s.edges :: Key(e.tenant, e.blob)
  }

  function Observe(s: Tables, k: Key): Seen {
    Seen(k, if k in s.rows then Some(s.rows[k].refcount) else None, |Manifests(s.edges, k)|)
  }

  /** A count below the number of edges is not drift. */
  function Classify(x: Seen): Option<Kind> {
    match x.observed
    case None => if x.edges > 0 then Some(Missing) else None
    case Some(o) => if x.edges == 0 && o > 0 then Some(Orphan) else if o > x.edges then Some(Underflow) else None
  }

  function Finding(x: Seen, kind: Kind): Drift {
    Drift(x.key, kind, x.edges, if x.observed.Some? then x.observed.value else 0)
  }

  function Recorded(s: Tables, x: Seen, kind: Kind): Tables {
    s.(drift := s.drift + [Finding(x, kind)])
  }

  function Corrected(rows: map<Key, Row>, x: Seen, kind: Kind, now: int): map<Key, Row> {
    match kind
    case Missing => rows[x.key := Row(x.edges, None, if x.key in rows then rows[x.key].bytes else 0)]
    case Orphan =>
      if x.key !in rows then rows
      else
        var r := rows[x.key];
        rows[x.key := Row(0, if r.zeroedAt.Some? then r.zeroedAt else Some(now), r.bytes)]
    case Underflow =>
      if x.key !in rows then rows
      else rows[x.key := Row(x.edges, if x.edges == 0 then Some(now) else None, rows[x.key].bytes)]
  }

  function Examine(s: Tables, x: Seen, fix: bool, now: int): Tables {
    var kind := Classify(x);
    if kind.None? then s
    else
      var t := Recorded(s, x, kind.value);
      if fix then t.(rows := Corrected(t.rows, x, kind.value, now)) else t
  }

  function Walk(s: Tables, seen: seq<Seen>, fix: bool, clock: nat -> int): Tables {
    if seen == [] then s
    else
      var n := |seen| - 1;
      Examine(Walk(s, seen[..n], fix, clock), seen[n], fix, clock(n))
  }

  datatype Stats = Stats(examined: nat, orphan: nat, missing: nat, underflow: nat, corrected: nat)

  const NO_STATS := Stats(0, 0, 0, 0, 0)

  function Tally(st: Stats, x: Seen, fix: bool): Stats {
    var one := st.(examined := st.examined + 1);
    var kind := Classify(x);
    if kind.None? then one
    else
      var fixed := if fix then one.(corrected := one.corrected + 1) else one;
      match kind.value
      case Missing => fixed.(missing := fixed.missing + 1)
      case Orphan => fixed.(orphan := fixed.orphan + 1)
      case Underflow => fixed.(underflow := fixed.underflow + 1)
  }

  function WalkStats(seen: seq<Seen>, fix: bool): Stats {
    if seen == [] then NO_STATS else Tally(WalkStats(seen[..|seen| - 1], fix), seen[|seen| - 1], fix)
  }

  // ---- The snapshot ----

  ghost function KeysOf(seen: seq<Seen>): set<Key> {
    set i | 0 <= i < |seen| :: seen[i].key
  }

  ghost predicate EachOnce(seen: seq<Seen>) {
    forall i, j :: 0 <= i < j < |seen| ==> seen[i].key != seen[j].key
  }

  ghost predicate AsStored(s: Tables, seen: seq<Seen>) {
    forall i :: 0 <= i < |seen| ==> seen[i] == Observe(s, seen[i].key)
  }

  /** Every known key at most once, as stored; all of them when the limit allows. */
  ghost predicate Snapshot(s: Tables, limit: nat, seen: seq<Seen>) {
    && EachOnce(seen) && AsStored(s, seen) && |seen| <= limit
    && KeysOf(seen) <= KnownKeys(s)
    && (|seen| < limit ==> KeysOf(seen) == KnownKeys(s))
  }

  lemma KeysOfMore(seen: seq<Seen>, x: Seen)
    ensures KeysOf(seen + [x]) == KeysOf(seen) + {x.key}
  {
    var more := seen + [x];
    forall k | k in KeysOf(seen) + {x.key}
      ensures k in KeysOf(more)
    {
      if k == x.key {
        assert more[|seen|].key == k;
      } else {
        var i :| 0 <= i < |seen| && seen[i].key == k;
        assert more[i].key == k;
      }
    }
  }

  // ---- What a pass writes ----

  ghost function Findings(seen: seq<Seen>): seq<Drift> {
    if seen == [] then []
    else
      var front, last := Findings(seen[..|seen| - 1]), seen[|seen| - 1];
      if Classify(last).Some? then front + [Finding(last, Classify(last).value)] else front
  }

  /** A pass leaves edges, paths and the reap log alone and records exactly its findings. */
  lemma {:induction false} WalkRecords(s: Tables, seen: seq<Seen>, fix: bool, clock: nat -> int)
    ensures Walk(s, seen, fix, clock).edges == s.edges && Walk(s, seen, fix, clock).paths == s.paths
            && Walk(s, seen, fix, clock).reaps == s.reaps
    ensures Walk(s, seen, fix, clock).drift == s.drift + Findings(seen)
    ensures !fix ==> Walk(s, seen, fix, clock).rows == s.rows
    ensures WalkStats(seen, fix).examined == |seen|
    ensures WalkStats(seen, fix).missing + WalkStats(seen, fix).orphan + WalkStats(seen, fix).underflow ==
            |Findings(seen)|
    ensures WalkStats(seen, fix).corrected == if fix then |Findings(seen)| else 0
  {
    if seen != [] {
      var n := |seen| - 1;
      WalkRecords(s, seen[..n], fix, clock);
      var t := Walk(s, seen[..n], fix, clock);
      assert Walk(s, seen, fix, clock) == Examine(t, seen[n], fix, clock(n));
    }
  }

  /** Rows that agree with their edges are passed over, whatever the tables hold by then. */
  lemma {:induction false} NoDriftNoWrite(s: Tables, seen: seq<Seen>, fix: bool, clock: nat -> int)
    requires forall i :: 0 <= i < |seen| ==> Classify(seen[i]).None?
    ensures Walk(s, seen, fix, clock) == s
    ensures WalkStats(seen, fix) == NO_STATS.(examined := |seen|)
  {
    if seen != [] {
      NoDriftNoWrite(s, seen[..|seen| - 1], fix, clock);
    }
  }

  function Min(a: nat, b: nat): nat {
    if a < b then a else b
  }

  /** The row of `k` is what the reconciler promises of a row it examined. */
  ghost predicate RowCorrected(s: Tables, rows: map<Key, Row>, k: Key) {
    var edges := |Manifests(s.edges, k)|;
    && (k in rows <==> k in s.rows || edges > 0)
    && (k in rows ==> rows[k].refcount == if k in s.rows then Min(s.rows[k].refcount, edges) else edges)
    && (k in rows ==> rows[k].bytes == if k in s.rows then s.rows[k].bytes else 0)
    && (k in s.rows && s.rows[k].refcount <= edges ==> rows[k] == s.rows[k])
    && (k in s.rows && edges == 0 && s.rows[k].zeroedAt.Some? ==> rows[k].zeroedAt == s.rows[k].zeroedAt)
    && (k in rows && (k in s.rows ==> (s.rows[k].zeroedAt.Some? <==> s.rows[k].refcount == 0)) ==>
          (rows[k].zeroedAt.Some? <==> rows[k].refcount == 0))
  }

  ghost predicate SameRow(a: map<Key, Row>, b: map<Key, Row>, k: Key) {
    (k in a <==> k in b) && (k in a ==> a[k] == b[k])
  }

  lemma ExamineCorrects(s: Tables, t: Tables, k: Key, now: int)
    requires SameRow(s.rows, t.rows, k)
    ensures RowCorrected(s, Examine(t, Observe(s, k), true, now).rows, k)
    ensures forall j: Key :: j != k ==> SameRow(t.rows, Examine(t, Observe(s, k), true, now).rows, j)
  {
  }

  /** A correcting pass over a snapshot of unchanged tables corrects the rows it lists and no others. */
  lemma {:induction false} WalkCorrects(s: Tables, seen: seq<Seen>, clock: nat -> int, k: Key)
    requires EachOnce(seen) && AsStored(s, seen)
    ensures k in KeysOf(seen) ==> RowCorrected(s, Walk(s, seen, true, clock).rows, k)
    ensures k !in KeysOf(seen) ==> SameRow(s.rows, Walk(s, seen, true, clock).rows, k)
  {
    if seen != [] {
      var n := |seen| - 1;
      var front, last := seen[..n], seen[n];
      WalkCorrects(s, front, clock, k);
      WalkCorrects(s, front, clock, last.key);
      assert seen == front + [last];
      KeysOfMore(front, last);
      assert last.key !in KeysOf(front);
      assert last == Observe(s, last.key);
      ExamineCorrects(s, Walk(s, front, true, clock), last.key, clock(n));
      if k in KeysOf(front) {
        assert SameRow(Walk(s, front, true, clock).rows, Walk(s, seen, true, clock).rows, k);
      }
    }
  }

  /**
   * Reconciling all rows of quiescent tables: every count becomes the smaller of what
   * was stored and the edges, or the edges where there was no row, and `zeroed_at`
   * stays set exactly at zero.
   */
  lemma ReconcileExactly(s: Tables, seen: seq<Seen>, clock: nat -> int, k: Key)
    requires EachOnce(seen) && AsStored(s, seen) && KeysOf(seen) == KnownKeys(s)
    ensures RowCorrected(s, Walk(s, seen, true, clock).rows, k)
    ensures ZeroedIffZero(s.rows) ==> ZeroedIffZero(Walk(s, seen, true, clock).rows)
  {
    forall j: Key
      ensures RowCorrected(s, Walk(s, seen, true, clock).rows, j)
    {
      WalkCorrects(s, seen, clock, j);
      if j !in KeysOf(seen) {
        UnknownHasNoEdge(s, j);
      }
    }
    if ZeroedIffZero(s.rows) {
      forall j | j in Walk(s, seen, true, clock).rows
        ensures Walk(s, seen, true, clock).rows[j].zeroedAt.Some? <==> Walk(s, seen, true, clock).rows[j].refcount == 0
      {
        assert RowCorrected(s, Walk(s, seen, true, clock).rows, j);
      }
    }
  }

  lemma UnknownHasNoEdge(s: Tables, k: Key)
    requires k !in KnownKeys(s)
    ensures k !in s.rows && Manifests(s.edges, k) == {}
  {
    LiveMeansEdge(s.edges, k);
    assert forall m :: Edge(k.tenant, m, k.blob) in s.edges ==> Key(k.tenant, k.blob) in KnownKeys(s);
  }

  /** After a full correcting pass, a second pass finds nothing and writes nothing. */
  lemma SecondPassIsClean(s: Tables, seen: seq<Seen>, clock: nat -> int, again: seq<Seen>, fix: bool, later: nat -> int)
    requires EachOnce(seen) && AsStored(s, seen) && KeysOf(seen) == KnownKeys(s)
    requires AsStored(Walk(s, seen, true, clock), again)
    ensures Walk(Walk(s, seen, true, clock), again, fix, later) == Walk(s, seen, true, clock)
    ensures WalkStats(again, fix) == NO_STATS.(examined := |again|)
  {
    var t := Walk(s, seen, true, clock);
    WalkRecords(s, seen, true, clock);
    forall i | 0 <= i < |again|
      ensures Classify(again[i]).None?
    {
      ReconcileExactly(s, seen, clock, again[i].key);
    }
    NoDriftNoWrite(t, again, fix, later);
  }

  /** A full correcting pass makes all counts right exactly when none was too low. */
  lemma ReconcileRepairs(s: Tables, seen: seq<Seen>, clock: nat -> int)
    requires EachOnce(seen) && AsStored(s, seen) && KeysOf(seen) == KnownKeys(s)
    ensures CountsEdges(Walk(s, seen, true, clock)) <==> forall k: Key :: NotTooLow(s, k)
  {
    var t := Walk(s, seen, true, clock);
    WalkRecords(s, seen, true, clock);
    forall k: Key
      ensures RightAt(t, k) <==> NotTooLow(s, k)
    {
      ReconcileExactly(s, seen, clock, k);
      RepairedAt(s, t, k);
    }
    CountsEdgesAt(t);
  }

  lemma CountsEdgesAt(t: Tables)
    ensures CountsEdges(t) <==> forall k: Key :: RightAt(t, k)
  {
    if forall k: Key :: RightAt(t, k) {
      forall k: Key
        ensures Count(t.rows, k) == |Manifests(t.edges, k)|
      {
        assert RightAt(t, k);
      }
    }
  }

  ghost predicate RightAt(t: Tables, k: Key) {
    Count(t.rows, k) == |Manifests(t.edges, k)|
  }

  ghost predicate NotTooLow(s: Tables, k: Key) {
    k in s.rows ==> s.rows[k].refcount >= |Manifests(s.edges, k)|
  }

  lemma RepairedAt(s: Tables, t: Tables, k: Key)
    requires t.edges == s.edges && RowCorrected(s, t.rows, k)
    ensures RightAt(t, k) <==> NotTooLow(s, k)
  {
  }

  /**
   * A correction made from an older snapshot `s` of tables that have since become `t`: the
   * count comes out right exactly when the blob has as many edges as it had then, or, for
   * a row that was there and is gone, none. Other counts stay as they are.
   */
  lemma StaleCorrection(s: Tables, t: Tables, k: Key, now: int)
    requires Classify(Observe(s, k)).Some?
    ensures RightAt(Examine(t, Observe(s, k), true, now), k) <==>
            |Manifests(t.edges, k)| == if k in t.rows || k !in s.rows then |Manifests(s.edges, k)| else 0
    ensures forall j: Key :: j != k ==> (RightAt(Examine(t, Observe(s, k), true, now), j) <==> RightAt(t, j))
  {
  }

  /** Consistent tables show no drift. */
  lemma ConsistentIsClean(s: Tables, k: Key)
    requires Consistent(s)
    ensures Classify(Observe(s, k)).None?
  {
    assert Count(s.rows, k) == |Manifests(s.edges, k)|;
  }

  // ---- What the drift rows say ----

  /**
   * A drift row of tables `s`: the edges are what was expected and the stored count is what
   * was observed; the kind is `Missing` without a row, `Orphan` with a row and no edge, and
   * `Underflow` otherwise.
   */
  ghost predicate TellsDrift(s: Tables, d: Drift) {
    && d.expected == |Manifests(s.edges, d.key)| && d.observed == Count(s.rows, d.key)
    && (d.kind.Missing? <==> d.key !in s.rows)
    && (d.kind.Orphan? <==> d.key in s.rows && Manifests(s.edges, d.key) == {})
    && (d.kind.Underflow? <==> d.key in s.rows && Manifests(s.edges, d.key) != {})
  }

  /** The count differs from the edges and was not too low; a missing row is never too low. */
  ghost predicate Drifts(s: Tables, k: Key) {
    !RightAt(s, k) && NotTooLow(s, k)
  }

  ghost predicate HasDrift(ds: seq<Drift>, k: Key) {
    exists i :: 0 <= i < |ds| && ds[i].key == k
  }

  ghost predicate OncePerKey(ds: seq<Drift>) {
    forall i, j :: 0 <= i < j < |ds| ==> ds[i].key != ds[j].key
  }

  ghost function OfKind(ds: seq<Drift>, kind: Kind): nat {
    if ds == [] then 0
    else OfKind(ds[..|ds| - 1], kind) + if ds[|ds| - 1].kind == kind then 1 else 0
  }

  lemma ClassifyExactly(s: Tables, k: Key)
    ensures Classify(Observe(s, k)).Some? <==> Drifts(s, k)
    ensures Classify(Observe(s, k)).Some? ==>
              TellsDrift(s, Finding(Observe(s, k), Classify(Observe(s, k)).value))
              && Finding(Observe(s, k), Classify(Observe(s, k)).value).key == k
  {
  }

  /** The drift rows `ds` are those of the keys in `keys` that drift, one each, and say why. */
  ghost predicate DriftRows(s: Tables, keys: set<Key>, ds: seq<Drift>) {
    && OncePerKey(ds)
    && (forall i :: 0 <= i < |ds| ==> TellsDrift(s, ds[i]))
    && (forall k :: HasDrift(ds, k) <==> k in keys && Drifts(s, k))
  }

  lemma HasDriftMore(ds: seq<Drift>, d: Drift, k: Key)
    ensures HasDrift(ds + [d], k) <==> HasDrift(ds, k) || d.key == k
  {
    if HasDrift(ds, k) {
      var i :| 0 <= i < |ds| && ds[i].key == k;
      assert (ds + [d])[i].key == k;
    }
    assert (ds + [d])[|ds|] == d;
  }

  lemma DriftRowsMore(s: Tables, keys: set<Key>, ds: seq<Drift>, k: Key)
    requires DriftRows(s, keys, ds) && k !in keys
    ensures var kind := Classify(Observe(s, k));
            DriftRows(s, keys + {k}, if kind.Some? then ds + [Finding(Observe(s, k), kind.value)] else ds)
  {
    ClassifyExactly(s, k);
    var kind := Classify(Observe(s, k));
    if kind.Some? {
      var d := Finding(Observe(s, k), kind.value);
      forall j: Key
        ensures HasDrift(ds + [d], j) <==> j in keys + {k} && Drifts(s, j)
      {
        HasDriftMore(ds, d, j);
      }
      assert forall i :: 0 <= i < |ds| ==> HasDrift(ds, ds[i].key);
    }
  }

  lemma {:induction false} FindingsAreDriftRows(s: Tables, seen: seq<Seen>)
    requires EachOnce(seen) && AsStored(s, seen)
    ensures DriftRows(s, KeysOf(seen), Findings(seen))
    ensures |KeysOf(seen)| == |seen|
  {
    if seen != [] {
      var front, last := seen[..|seen| - 1], seen[|seen| - 1];
      FindingsAreDriftRows(s, front);
      assert seen == front + [last];
      KeysOfMore(front, last);
      assert last.key !in KeysOf(front);
      assert last == Observe(s, last.key);
      DriftRowsMore(s, KeysOf(front), Findings(front), last.key);
    }
  }

  lemma OfKindMore(ds: seq<Drift>, d: Drift, kind: Kind)
    ensures OfKind(ds + [d], kind) == OfKind(ds, kind) + if d.kind == kind then 1 else 0
  {
    assert (ds + [d])[..|ds|] == ds;
  }

  ghost function StatOf(st: Stats, kind: Kind): nat {
    match kind
    case Missing => st.missing
    case Orphan => st.orphan
    case Underflow => st.underflow
  }

  lemma TallyCounts(st: Stats, x: Seen, fix: bool, kind: Kind)
    ensures StatOf(Tally(st, x, fix), kind) == StatOf(st, kind) + if Classify(x) == Some(kind) then 1 else 0
  {
  }

  /** Each statistic is the number of findings of its kind. */
  lemma {:induction false} StatsCountKinds(seen: seq<Seen>, fix: bool, kind: Kind)
    ensures StatOf(WalkStats(seen, fix), kind) == OfKind(Findings(seen), kind)
  {
    if seen != [] {
      var front, last := seen[..|seen| - 1], seen[|seen| - 1];
      StatsCountKinds(front, fix, kind);
      TallyCounts(WalkStats(front, fix), last, fix, kind);
      if Classify(last).Some? {
        OfKindMore(Findings(front), Finding(last, Classify(last).value), kind);
      }
    }
  }

  /**
   * A finished pass over the keys `keys` of the tables `s`: the new drift rows are those of
   * the keys that drift, and each statistic is the number of them of its kind.
   */
  ghost predicate PassRecords(s: Tables, t: Tables, keys: set<Key>, st: Stats, fix: bool) {
    && s.drift <= t.drift
    && var ds := t.drift[|s.drift|..];
       && DriftRows(s, keys, ds)
       && st.examined == |keys|
       && st.missing == OfKind(ds, Missing) && st.orphan == OfKind(ds, Orphan)
       && st.underflow == OfKind(ds, Underflow)
       && st.corrected == if fix then |ds| else 0
  }

  lemma WalkPassRecords(s: Tables, seen: seq<Seen>, fix: bool, clock: nat -> int)
    requires EachOnce(seen) && AsStored(s, seen)
    ensures PassRecords(s, Walk(s, seen, fix, clock), KeysOf(seen), WalkStats(seen, fix), fix)
  {
    WalkRecords(s, seen, fix, clock);
    FindingsAreDriftRows(s, seen);
    StatsCountKinds(seen, fix, Missing);
    StatsCountKinds(seen, fix, Orphan);
    StatsCountKinds(seen, fix, Underflow);
    assert (s.drift + Findings(seen))[|s.drift|..] == Findings(seen);
  }

  /** A pass that broke off recorded nothing but drift rows of its snapshot, one per key. */
  lemma BrokenPassRecords(s: Tables, t: Tables, seen: seq<Seen>, n: nat, fix: bool, clock: nat -> int)
    requires EachOnce(seen) && AsStored(s, seen) && BrokeOff(s, t, seen, n, fix, clock)
    ensures s.drift <= t.drift && t.edges == s.edges && t.paths == s.paths && t.reaps == s.reaps
    ensures exists keys :: keys <= KeysOf(seen) && DriftRows(s, keys, t.drift[|s.drift|..])
  {
    var front := seen[..n];
    WalkRecords(s, front, fix, clock);
    FindingsAreDriftRows(s, front);
    assert (s.drift + Findings(front))[|s.drift|..] == Findings(front);
    KeysOfFront(seen, n);
    if t != Walk(s, front, fix, clock) {
      var more, kind := seen[..n + 1], Classify(seen[n]).value;
      FindingsAreDriftRows(s, more);
      KeysOfFront(seen, n + 1);
      assert more[..n] == front && Findings(more) == Findings(front) + [Finding(seen[n], kind)];
      assert t.drift == s.drift + Findings(more);
      assert t.drift[|s.drift|..] == Findings(more);
    }
  }

  lemma KeysOfFront(seen: seq<Seen>, n: nat)
    requires n <= |seen|
    ensures KeysOf(seen[..n]) <= KeysOf(seen)
  {
    forall k | k in KeysOf(seen[..n])
      ensures k in KeysOf(seen)
    {
      var i :| 0 <= i < n && seen[..n][i].key == k;
      assert seen[i].key == k;
    }
  }

  // ---- The pass itself ----

  const I64_MAX: nat := 0x7FFF_FFFF_FFFF_FFFF

  /** A snapshot in the making. */
  ghost predicate Looking(s: Tables, todo: set<Key>, seen: seq<Seen>) {
    && EachOnce(seen) && AsStored(s, seen)
    && todo == KnownKeys(s) - KeysOf(seen) && KeysOf(seen) <= KnownKeys(s)
  }

  lemma SeeOneMore(s: Tables, todo: set<Key>, seen: seq<Seen>, k: Key)
    requires Looking(s, todo, seen) && k in todo
    ensures Looking(s, todo - {k}, seen + [Observe(s, k)])
  {
    KeysOfMore(seen, Observe(s, k));
    assert forall i :: 0 <= i < |seen| ==> seen[i].key in KeysOf(seen);
  }

  lemma SeenNothing(s: Tables)
    ensures Looking(s, KnownKeys(s), [])
  {
    assert KeysOf([]) == {};
  }

  lemma SeenEnough(s: Tables, limit: nat, todo: set<Key>, seen: seq<Seen>)
    requires Looking(s, todo, seen) && |seen| <= limit && (todo == {} || |seen| == limit)
    ensures Snapshot(s, limit, seen)
  {
    assert forall k :: k in KnownKeys(s) && k !in KeysOf(seen) ==> k in todo;
  }

  method TakeSnapshot(s: Tables, limit: nat) returns (seen: seq<Seen>)
    ensures Snapshot(s, limit, seen)
  {
    seen := [];
    var todo := KnownKeys(s);
    SeenNothing(s);
    while todo != {} && |seen| < limit
      invariant Looking(s, todo, seen) && |seen| <= limit
      decreases |todo|
    {
      var k :| k in todo;
      SeeOneMore(s, todo, seen, k);
      seen := seen + [Observe(s, k)];
      todo := todo - {k};
    }
    SeenEnough(s, limit, todo, seen);
  }

  method RecordDrift(db: Database, x: Seen, kind: Kind, expected: nat, observed: nat) returns (ok: bool)
    modifies db
    ensures db.reliable ==> ok
    ensures db.State() == if ok
            then old(db.State()).(drift := old(db.drift) + [Drift(x.key, kind, expected, observed)])
                else old(db.State())
  {
    ok := *;
    ok := ok || db.reliable;
    if ok {
      db.drift := db.drift + [Drift(x.key, kind, expected, observed)];
    }
  }

  method FixMissing(db: Database, k: Key, expected: nat) returns (ok: bool)
    modifies db
    ensures db.reliable ==> ok
    ensures forall x: Seen :: x.key == k && x.edges == expected ==>
              db.State() == if ok then old(db.State()).(rows := Corrected(old(db.rows), x, Missing, 0))
                  else old(db.State())
  {
    ok := *;
    ok := ok || db.reliable;
    if ok {
      if k in db.rows {
        db.rows := db.rows[k := Row(expected, None, db.rows[k].bytes)];
      } else {
        db.rows := db.rows[k := Row(expected, None, 0)];
      }
    }
  }

  method FixOrphan(db: Database, k: Key, now: int) returns (ok: bool)
    modifies db
    ensures db.reliable ==> ok
    ensures forall x: Seen :: x.key == k ==>
              db.State() == if ok then old(db.State()).(rows := Corrected(old(db.rows), x, Orphan, now))
                  else old(db.State())
  {
    ok := *;
    ok := ok || db.reliable;
    if ok && k in db.rows {
      var r := db.rows[k];
      db.rows := db.rows[k := Row(0, if r.zeroedAt.Some? then r.zeroedAt else Some(now), r.bytes)];
    }
  }

  method FixUnderflow(db: Database, k: Key, expected: nat, now: int) returns (ok: bool)
    modifies db
    ensures db.reliable ==> ok
    ensures forall x: Seen :: x.key == k && x.edges == expected ==>
              db.State() == if ok then old(db.State()).(rows := Corrected(old(db.rows), x, Underflow, now))
                  else old(db.State())
  {
    ok := *;
    ok := ok || db.reliable;
    if ok && k in db.rows {
      db.rows := db.rows[k := Row(expected, if expected == 0 then Some(now) else None, db.rows[k].bytes)];
    }
  }

  /** One row: classify, record, correct. */
  method ReconcileRow(db: Database, x: Seen, fix: bool, now: int, stats: Stats) returns (ok: bool, st: Stats)
    modifies db
    ensures ok ==> db.State() == Examine(old(db.State()), x, fix, now) && st == Tally(stats, x, fix)
    ensures !ok ==>
            || db.State() == old(db.State())
            || (Classify(x).Some? && db.State() == Recorded(old(db.State()), x, Classify(x).value))
    ensures db.reliable ==> ok
  {
    st := stats.(examined := stats.examined + 1);
    ok := true;
    var e := x.edges;
    if x.observed.None? && e > 0 {
      st := st.(missing := st.missing + 1);
      ok := RecordDrift(db, x, Missing, e, 0);
      if ok && fix {
        ok := FixMissing(db, x.key, e);
        st := st.(corrected := st.corrected + 1);
      }
    } else if x.observed.Some? && e == 0 && x.observed.value > 0 {
      st := st.(orphan := st.orphan + 1);
      ok := RecordDrift(db, x, Orphan, 0, x.observed.value);
      if ok && fix {
        ok := FixOrphan(db, x.key, now);
        st := st.(corrected := st.corrected + 1);
      }
    } else if x.observed.Some? && x.observed.value > e {
      st := st.(underflow := st.underflow + 1);
      ok := RecordDrift(db, x, Underflow, e, x.observed.value);
      if ok && fix {
        ok := FixUnderflow(db, x.key, e, now);
        st := st.(corrected := st.corrected + 1);
      }
    }
  }

  /** A pass that broke off in row `n`, at most with that row's drift recorded. */
  ghost predicate BrokeOff(s: Tables, t: Tables, seen: seq<Seen>, n: nat, fix: bool, clock: nat -> int) {
    && n <= |seen|
    && (|| t == Walk(s, seen[..n], fix, clock)
        || (n < |seen| && Classify(seen[n]).Some?
            && t == Recorded(Walk(s, seen[..n], fix, clock), seen[n], Classify(seen[n]).value)))
  }

  /** The whole pass. The database refuses a negative limit; no limit means the largest one. */
  method Reconcile(db: Database, maxBlobs: Option<int>, fix: bool, clock: nat -> int)
    returns (r: Result<Stats, ()>, ghost seen: seq<Seen>, ghost n: nat)
    modifies db
    ensures maxBlobs.Some? && maxBlobs.value < 0 ==> r.Err? && db.State() == old(db.State())
    ensures r.Ok? ==> Snapshot(old(db.State()), if maxBlobs.Some? then maxBlobs.value else I64_MAX, seen)
    ensures r.Ok? ==> db.State() == Walk(old(db.State()), seen, fix, clock) && r.value == WalkStats(seen, fix)
    ensures r.Ok? ==> PassRecords(old(db.State()), db.State(), KeysOf(seen), r.value, fix)
    ensures r.Err? ==> BrokeOff(old(db.State()), db.State(), seen, n, fix, clock)
    ensures db.reliable && (maxBlobs.Some? ==> maxBlobs.value >= 0) ==> r.Ok?
  {
    seen, n := [], 0;
    var limit := if maxBlobs.Some? then maxBlobs.value else I64_MAX;
    var answered: bool := *;
    if limit < 0 || (!answered && !db.reliable) {
      return Err(()), seen, n;
    }
    var rows := TakeSnapshot(db.State(), limit);
    seen := rows;
    var stats := NO_STATS;
    ghost var s := db.State();
    for i := 0 to |rows|
      invariant db.State() == Walk(s, rows[..i], fix, clock) && stats == WalkStats(rows[..i], fix)
    {
      assert rows[..i + 1][..i] == rows[..i];
      var ok, st := ReconcileRow(db, rows[i], fix, clock(i), stats);
      if !ok {
        n := i;
        return Err(()), seen, n;
      }
      stats := st;
    }
    assert rows[..|rows|] == rows;
    WalkPassRecords(s, rows, fix, clock);
    return Ok(stats), seen, n;
  }
}
