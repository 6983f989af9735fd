/**
 * Runs of the online collector (crates/specton-gc/src) in which a property one might
 * expect fails. Each goes with the lemma that says exactly when the property holds.
 */
module GcWitnesses {
  import opened Common
  import opened StoragePaths
  import opened GcTables
  import opened GcReaper
  import opened GcRuns
  import R = GcReconciler
  import S = GcStored

  // ---- The tables of one blob ----

  function KeyOf(p: Push, d: string): Key {
    Key(p.tenant, d)
  }

  /** One manifest refers to the blob. */
  function Referred(p: Push, d: string): Tables {
    Tables({EdgeOf(p, d)}, map[KeyOf(p, d) := Row(1, None, 0)], {PathOf(p, d)}, [], [])
  }

  /** No manifest refers to the blob since `at`. */
  function Unreferred(p: Push, d: string, at: int): Tables {
    Tables({}, map[KeyOf(p, d) := Row(0, Some(at), 0)], {PathOf(p, d)}, [], [])
  }

  function One(d: string): seq<Blob> {
    [Blob(d, 0)]
  }

  lemma AddsOne(s: Tables, p: Push, d: string)
    ensures Added(s, p, One(d)) == AddOne(s, p, Blob(d, 0))
  {
    assert One(d)[..|One(d)| - 1] == [];
    assert Added(s, p, []) == s;
  }

  lemma PushedOnce(p: Push, d: string)
    ensures Added(EMPTY, p, One(d)) == Referred(p, d)
  {
    AddsOne(EMPTY, p, d);
    assert EMPTY.paths + {PathOf(p, d)} == {PathOf(p, d)} && EMPTY.edges + {EdgeOf(p, d)} == {EdgeOf(p, d)};
    assert map[][KeyOf(p, d) := Row(1, None, 0)] == map[KeyOf(p, d) := Row(1, None, 0)];
  }

  lemma PushedAgain(p: Push, d: string, at: int)
    ensures Added(Unreferred(p, d, at), p, One(d)) == Referred(p, d)
  {
    AddsOne(Unreferred(p, d, at), p, d);
    assert {PathOf(p, d)} + {PathOf(p, d)} == {PathOf(p, d)} && {} + {EdgeOf(p, d)} == {EdgeOf(p, d)};
    assert map[KeyOf(p, d) := Row(0, Some(at), 0)][KeyOf(p, d) := Row(1, None, 0)] ==
           map[KeyOf(p, d) := Row(1, None, 0)];
  }

  lemma Deleted(p: Push, d: string, at: int)
    ensures Removed(Referred(p, d), p.tenant, p.manifest, at) == Unreferred(p, d, at)
  {
    var s := Referred(p, d);
    assert EdgesOf(s.edges, p.tenant, p.manifest) == {EdgeOf(p, d)};
    assert Removed(s, p.tenant, p.manifest, at).rows == map[KeyOf(p, d) := Row(0, Some(at), 0)];
  }

  lemma SelectsOne(s: Tables, k: Key, now: int, grace: nat)
    requires k in s.rows && EligibleKeys(s.rows, now, grace) == {k}
    ensures Selected(s.rows, now, grace, 1, {}, [Candidate(k, s.rows[k].bytes)])
  {
    var c := Candidate(k, s.rows[k].bytes);
    TakenNothing(s.rows, now, grace, {});
    assert EligibleKeys(s.rows, now, grace) - {} == {k};
    TakeOldest(s.rows, now, grace, {}, {k}, [], k);
    assert [] + [c] == [c];
    TakenEnough(s.rows, now, grace, 1, {}, {k} - {k}, [c]);
  }

  lemma SelectsUnreferred(p: Push, d: string, at: int, now: int, grace: nat)
    requires at < now - grace
    ensures Selected(Unreferred(p, d, at).rows, now, grace, 1, {}, [Candidate(KeyOf(p, d), 0)])
  {
    assert EligibleKeys(Unreferred(p, d, at).rows, now, grace) == {KeyOf(p, d)};
    SelectsOne(Unreferred(p, d, at), KeyOf(p, d), now, grace);
  }

  const IDLE := Reaper([], 0, 0, 0)

  function Holding(k: Key): Reaper {
    Reaper([Candidate(k, 0)], 0, 0, 0)
  }

  // ---- Putting runs together ----

  /** Three steps on from a run. */
  lemma Chain(ws: seq<World>, acts: seq<Action>, a: Action, b: Action, c: Action, u: World, v: World, w: World)
    requires Runs(ws, acts) && Next(ws[|acts|], a, u) && Next(u, b, v) && Next(v, c, w)
    ensures Runs(ws + [u, v, w], acts + [a, b, c])
  {
    var xs, bs := ws + [u, v, w], acts + [a, b, c];
    forall i | 0 <= i < |bs|
      ensures Next(xs[i], bs[i], xs[i + 1])
    {
      if i < |acts| {
        assert xs[i] == ws[i] && xs[i + 1] == ws[i + 1] && bs[i] == acts[i];
      }
    }
  }

  /** One reaper and no reconciler. */
  function Alone(s: Tables, objects: set<Place>, r: Reaper): World {
    World(s, objects, [r], [])
  }

  const DONE := Reaper([], 1, 0, 0)

  /** Nothing is stored for the blob, and a reaper has one reap to its name. */
  ghost function AfterReap(s: Tables, objects: set<Place>, k: Key): World {
    Alone(Reaped(s, k, 0), objects - ObjectKeys(s.paths, k), DONE)
  }

  lemma Pushes(s: Tables, objects: set<Place>, r: Reaper, p: Push, d: string, t: Tables)
    requires Added(s, p, One(d)) == t
    ensures Next(Alone(s, objects, r), AddRefs(p, One(d)), Alone(t, objects, r))
  {
  }

  lemma Deletes(s: Tables, objects: set<Place>, r: Reaper, p: Push, at: int, t: Tables)
    requires Removed(s, p.tenant, p.manifest, at) == t
    ensures Next(Alone(s, objects, r), RemoveRefs(p.tenant, p.manifest, at), Alone(t, objects, r))
  {
  }

  lemma Uploads(s: Tables, r: Reaper, o: Place)
    ensures Next(Alone(s, {}, r), Upload(o), Alone(s, {o}, r))
  {
    assert {} + {o} == {o};
  }

  lemma Picks(s: Tables, objects: set<Place>, k: Key, now: int, grace: nat)
    requires Selected(s.rows, now, grace, 1, {}, [Candidate(k, 0)])
    ensures Next(Alone(s, objects, IDLE), Taking1(k, now, grace), Alone(s, objects, Holding(k)))
  {
  }

  function Taking1(k: Key, now: int, grace: nat): Action {
    Select(0, [Candidate(k, 0)], now, grace, 1, {})
  }

  lemma Reaps(s: Tables, objects: set<Place>, k: Key)
    requires AtZero(s, k)
    ensures Next(Alone(s, objects, Holding(k)), ReapNext(0, Gone), AfterReap(s, objects, k))
  {
    assert Done(Holding(k), Gone) == DONE;
  }

  // ---- The grace period is not checked again ----

  /** A blob pushed again and deleted again after it was selected is reaped without any grace. */
  lemma GraceIsNotRechecked(p: Push, d: string, now: int, grace: nat, later: int)
    returns (ws: seq<World>, acts: seq<Action>)
    requires now <= later
    ensures Runs(ws, acts) && Start(ws[0]) && |acts| == 6
    ensures acts[2].Select? && acts[2].at == now && acts[2].grace == grace && acts[5] == ReapNext(0, Gone)
    ensures AtZero(ws[5].tables, KeyOf(p, d)) && ws[5].tables.rows[KeyOf(p, d)].zeroedAt == Some(later)
    ensures KeyOf(p, d) !in ws[6].tables.rows
  {
    var k, before := KeyOf(p, d), now - grace - 1;
    var referred, first, second := Referred(p, d), Unreferred(p, d, before), Unreferred(p, d, later);
    PushedOnce(p, d);
    Pushes(EMPTY, {}, IDLE, p, d, referred);
    Deleted(p, d, before);
    Deletes(referred, {}, IDLE, p, before, first);
    SelectsUnreferred(p, d, before, now, grace);
    Picks(first, {}, k, now, grace);
    PushedAgain(p, d, before);
    Pushes(first, {}, Holding(k), p, d, referred);
    Deleted(p, d, later);
    Deletes(referred, {}, Holding(k), p, later, second);
    Reaps(second, {}, k);
    var w0, w1 := Alone(EMPTY, {}, IDLE), Alone(referred, {}, IDLE);
    var w2, w3 := Alone(first, {}, IDLE), Alone(first, {}, Holding(k));
    var w4, w5, w6 := Alone(referred, {}, Holding(k)), Alone(second, {}, Holding(k)), AfterReap(second, {}, k);
    var push := AddRefs(p, One(d));
    var delete, again := RemoveRefs(p.tenant, p.manifest, before), RemoveRefs(p.tenant, p.manifest, later);
    Chain([w0], [], push, delete, Taking1(k, now, grace), w1, w2, w3);
    Chain([w0] + [w1, w2, w3], [] + [push, delete, Taking1(k, now, grace)], push, again, ReapNext(0, Gone), w4, w5, w6);
    ws := [w0] + [w1, w2, w3] + [w4, w5, w6];
    acts := [] + [push, delete, Taking1(k, now, grace)] + [push, again, ReapNext(0, Gone)];
  }

  // ---- A reap between upload and push ----

  lemma PushedAfterReap(p: Push, q: Push, d: string)
    requires q == p.(manifest := q.manifest)
    ensures var t := Added(Reaped(Unreferred(p, d, 0), KeyOf(p, d), 0), q, One(d));
            EdgeOf(q, d) in t.edges && PathOf(q, d) in t.paths
  {
    AddsOne(Reaped(Unreferred(p, d, 0), KeyOf(p, d), 0), q, d);
  }

  /** An object uploaded again while its blob waits to be reaped is gone by the time it is pushed. */
  lemma ReapLosesUpload(p: Push, q: Push, d: string, grace: nat) returns (ws: seq<World>, acts: seq<Action>)
    requires q == p.(manifest := q.manifest)
    ensures Runs(ws, acts) && Start(ws[0]) && |acts| == 6
    ensures acts[3] == Upload(ObjectKey(PathOf(q, d))) && acts[5] == AddRefs(q, One(d))
    ensures EdgeOf(q, d) in ws[6].tables.edges && PathOf(q, d) in ws[6].tables.paths
    ensures ObjectKey(PathOf(q, d)) !in ws[6].objects
  {
    var k, o, now := KeyOf(p, d), ObjectKey(PathOf(p, d)), grace + 1;
    var referred, idle := Referred(p, d), Unreferred(p, d, 0);
    PushedOnce(p, d);
    Pushes(EMPTY, {}, IDLE, p, d, referred);
    Deleted(p, d, 0);
    Deletes(referred, {}, IDLE, p, 0, idle);
    SelectsUnreferred(p, d, 0, now, grace);
    Picks(idle, {}, k, now, grace);
    Uploads(idle, Holding(k), o);
    Reaps(idle, {o}, k);
    var gone := AfterReap(idle, {o}, k);
    PushedAfterReap(p, q, d);
    Pushes(gone.tables, gone.objects, DONE, q, d, Added(gone.tables, q, One(d)));
    assert PathOf(p, d) in PathsOf(idle.paths, k);
    var w0, w1 := Alone(EMPTY, {}, IDLE), Alone(referred, {}, IDLE);
    var w2, w3 := Alone(idle, {}, IDLE), Alone(idle, {}, Holding(k));
    var w4, w6 := Alone(idle, {o}, Holding(k)), Alone(Added(gone.tables, q, One(d)), gone.objects, DONE);
    var push, delete := AddRefs(p, One(d)), RemoveRefs(p.tenant, p.manifest, 0);
    Chain([w0], [], push, delete, Taking1(k, now, grace), w1, w2, w3);
    Chain([w0] + [w1, w2, w3], [] + [push, delete, Taking1(k, now, grace)],
          Upload(o), ReapNext(0, Gone), AddRefs(q, One(d)), w4, gone, w6);
    ws := [w0] + [w1, w2, w3] + [w4, gone, w6];
    acts := [] + [push, delete, Taking1(k, now, grace)] + [Upload(o), ReapNext(0, Gone), AddRefs(q, One(d))];
  }

  // ---- Two blobs with one object ----

  /** Two manifests refer to one blob each. */
  function Both(p: Push, d: string, q: Push, f: string): Tables {
    Tables({EdgeOf(p, d), EdgeOf(q, f)},
           map[KeyOf(p, d) := Row(1, None, 0), KeyOf(q, f) := Row(1, None, 0)],
           {PathOf(p, d), PathOf(q, f)}, [], [])
  }

  /** The second manifest is gone. */
  function FirstOnly(p: Push, d: string, q: Push, f: string): Tables {
    Tables({EdgeOf(p, d)},
           map[KeyOf(p, d) := Row(1, None, 0), KeyOf(q, f) := Row(0, Some(0), 0)],
           {PathOf(p, d), PathOf(q, f)}, [], [])
  }

  lemma PushedSecond(p: Push, d: string, q: Push, f: string)
    requires KeyOf(p, d) != KeyOf(q, f)
    ensures Added(Referred(p, d), q, One(f)) == Both(p, d, q, f)
  {
    AddsOne(Referred(p, d), q, f);
    assert {PathOf(p, d)} + {PathOf(q, f)} == {PathOf(p, d), PathOf(q, f)};
    assert {EdgeOf(p, d)} + {EdgeOf(q, f)} == {EdgeOf(p, d), EdgeOf(q, f)};
    assert map[KeyOf(p, d) := Row(1, None, 0)][KeyOf(q, f) := Row(1, None, 0)] == Both(p, d, q, f).rows;
  }

  lemma DeletedSecond(p: Push, d: string, q: Push, f: string)
    requires KeyOf(p, d) != KeyOf(q, f) && (p.tenant != q.tenant || p.manifest != q.manifest)
    ensures Removed(Both(p, d, q, f), q.tenant, q.manifest, 0) == FirstOnly(p, d, q, f)
  {
    var s := Both(p, d, q, f);
    assert EdgesOf(s.edges, q.tenant, q.manifest) == {EdgeOf(q, f)};
    assert s.edges - {EdgeOf(q, f)} == {EdgeOf(p, d)};
    assert Removed(s, q.tenant, q.manifest, 0).rows == FirstOnly(p, d, q, f).rows;
  }

  lemma SelectsSecond(p: Push, d: string, q: Push, f: string, now: int, grace: nat)
    requires KeyOf(p, d) != KeyOf(q, f) && 0 < now - grace
    ensures Selected(FirstOnly(p, d, q, f).rows, now, grace, 1, {}, [Candidate(KeyOf(q, f), 0)])
  {
    assert EligibleKeys(FirstOnly(p, d, q, f).rows, now, grace) == {KeyOf(q, f)};
    SelectsOne(FirstOnly(p, d, q, f), KeyOf(q, f), now, grace);
  }

  /** A run that ends with a referred blob whose object a reap of another blob deleted. */
  ghost predicate LosesLive(ws: seq<World>, acts: seq<Action>, p: Push, d: string) {
    && Runs(ws, acts) && Start(ws[0]) && |acts| == 6 && acts[5] == ReapNext(0, Gone)
    && (forall i :: 2 <= i < 7 ==> EdgeOf(p, d) in ws[i].tables.edges && PathOf(p, d) in ws[i].tables.paths)
    && (forall i :: 1 <= i < 6 ==> ObjectKey(PathOf(p, d)) in ws[i].objects)
    && ObjectKey(PathOf(p, d)) !in ws[6].objects
  }

  lemma StaysReferred(p: Push, d: string, q: Push, f: string)
    requires KeyOf(p, d) != KeyOf(q, f) && ObjectKey(PathOf(p, d)) == ObjectKey(PathOf(q, f))
    ensures var s, k := FirstOnly(p, d, q, f), KeyOf(q, f);
            && EdgeOf(p, d) in Reaped(s, k, 0).edges && PathOf(p, d) in Reaped(s, k, 0).paths
            && ObjectKey(PathOf(p, d)) in ObjectKeys(s.paths, k)
  {
    assert PathOf(q, f) in PathsOf(FirstOnly(p, d, q, f).paths, KeyOf(q, f));
  }

  ghost function SharedWorlds(p: Push, d: string, q: Push, f: string): seq<World> {
    var k, o, left := KeyOf(q, f), ObjectKey(PathOf(p, d)), FirstOnly(p, d, q, f);
    [Alone(EMPTY, {}, IDLE)]
    + [Alone(EMPTY, {o}, IDLE), Alone(Referred(p, d), {o}, IDLE), Alone(Both(p, d, q, f), {o}, IDLE)]
    + [Alone(left, {o}, IDLE), Alone(left, {o}, Holding(k)), AfterReap(left, {o}, k)]
  }

  function SharedActs(p: Push, d: string, q: Push, f: string, grace: nat): seq<Action> {
    [] + [Upload(ObjectKey(PathOf(p, d))), AddRefs(p, One(d)), AddRefs(q, One(f))]
    + [RemoveRefs(q.tenant, q.manifest, 0), Taking1(KeyOf(q, f), grace + 1, grace), ReapNext(0, Gone)]
  }

  lemma SharedRuns(p: Push, d: string, q: Push, f: string, grace: nat)
    requires KeyOf(p, d) != KeyOf(q, f) && (p.tenant != q.tenant || p.manifest != q.manifest)
    ensures Runs(SharedWorlds(p, d, q, f), SharedActs(p, d, q, f, grace))
  {
    SharedPushes(p, d, q, f);
    SharedReap(p, d, q, f, grace);
    var k, o, left := KeyOf(q, f), ObjectKey(PathOf(p, d)), FirstOnly(p, d, q, f);
    var w0, w1, w2 := Alone(EMPTY, {}, IDLE), Alone(EMPTY, {o}, IDLE), Alone(Referred(p, d), {o}, IDLE);
    var w3, w4, w5 := Alone(Both(p, d, q, f), {o}, IDLE), Alone(left, {o}, IDLE), Alone(left, {o}, Holding(k));
    Chain([w0], [], Upload(o), AddRefs(p, One(d)), AddRefs(q, One(f)), w1, w2, w3);
    Chain([w0] + [w1, w2, w3], [] + [Upload(o), AddRefs(p, One(d)), AddRefs(q, One(f))],
          RemoveRefs(q.tenant, q.manifest, 0), Taking1(k, grace + 1, grace), ReapNext(0, Gone),
          w4, w5, AfterReap(left, {o}, k));
  }

  lemma SharedPushes(p: Push, d: string, q: Push, f: string)
    requires KeyOf(p, d) != KeyOf(q, f)
    ensures var o, one := ObjectKey(PathOf(p, d)), Alone(Referred(p, d), {ObjectKey(PathOf(p, d))}, IDLE);
            && Next(Alone(EMPTY, {}, IDLE), Upload(o), Alone(EMPTY, {o}, IDLE))
            && Next(Alone(EMPTY, {o}, IDLE), AddRefs(p, One(d)), one)
            && Next(one, AddRefs(q, One(f)), Alone(Both(p, d, q, f), {o}, IDLE))
  {
    var o, one := ObjectKey(PathOf(p, d)), Referred(p, d);
    Uploads(EMPTY, IDLE, o);
    PushedOnce(p, d);
    Pushes(EMPTY, {o}, IDLE, p, d, one);
    PushedSecond(p, d, q, f);
    Pushes(one, {o}, IDLE, q, f, Both(p, d, q, f));
  }

  lemma SharedReap(p: Push, d: string, q: Push, f: string, grace: nat)
    requires KeyOf(p, d) != KeyOf(q, f) && (p.tenant != q.tenant || p.manifest != q.manifest)
    ensures var k, o, left := KeyOf(q, f), ObjectKey(PathOf(p, d)), FirstOnly(p, d, q, f);
            && Next(Alone(Both(p, d, q, f), {o}, IDLE), RemoveRefs(q.tenant, q.manifest, 0), Alone(left, {o}, IDLE))
            && Next(Alone(left, {o}, IDLE), Taking1(k, grace + 1, grace), Alone(left, {o}, Holding(k)))
            && Next(Alone(left, {o}, Holding(k)), ReapNext(0, Gone), AfterReap(left, {o}, k))
  {
    var k, o, left := KeyOf(q, f), ObjectKey(PathOf(p, d)), FirstOnly(p, d, q, f);
    DeletedSecond(p, d, q, f);
    Deletes(Both(p, d, q, f), {o}, IDLE, q, 0, left);
    SelectsSecond(p, d, q, f, grace + 1, grace);
    Picks(left, {o}, k, grace + 1, grace);
    Reaps(left, {o}, k);
  }

  lemma SecondIsReaped(p: Push, d: string, q: Push, f: string, grace: nat)
    requires KeyOf(p, d) != KeyOf(q, f) && (p.tenant != q.tenant || p.manifest != q.manifest)
    requires ObjectKey(PathOf(p, d)) == ObjectKey(PathOf(q, f))
    ensures LosesLive(SharedWorlds(p, d, q, f), SharedActs(p, d, q, f, grace), p, d)
  {
    SharedRuns(p, d, q, f, grace);
    StaysReferred(p, d, q, f);
  }

  /**
   * One layer named `sha256:hash` and one named `hash` share an object: reaping the second
   * deletes it while a manifest still refers to the first.
   */
  lemma SharedObjectIsLost(p: Push, q: Push, hash: string, grace: nat)
    requires q == p.(manifest := q.manifest) && p.manifest != q.manifest && !IsDigest(hash)
    ensures exists ws, acts :: LosesLive(ws, acts, p, DIGEST_PREFIX + hash)
  {
    assert Hex(DIGEST_PREFIX + hash) == hash && DIGEST_PREFIX + hash != hash;
    SecondIsReaped(p, DIGEST_PREFIX + hash, q, hash, grace);
  }

  /** With slashes in names the two may even belong to different tenants. */
  lemma SlashedTenantLosesObject(t: string, a: string, b: string, c: string, m: string, d: string, grace: nat)
    ensures exists ws, acts :: LosesLive(ws, acts, Push(t + ['/'] + a, b, c, m), d)
  {
    var p, q := Push(t + ['/'] + a, b, c, m), Push(t, a, b + ['/'] + c, m);
    SlashedNamesShare(t, a, b, c, d);
    KeyParts(RepoOf(PathOf(p, d)), d);
    KeyParts(RepoOf(PathOf(q, d)), d);
    assert |p.tenant| > |q.tenant|;
    SecondIsReaped(p, d, q, d, grace);
  }

  // ---- Stored manifests without edges ----

  ghost predicate StoredButLost(c: S.Contents, gs: seq<S.Registry>, calls: seq<S.Call>, q: Push, d: string) {
    && S.History(c, gs, calls) && q in gs[|calls|].stored && Lists(c(q.manifest), d)
    && ObjectKey(PathOf(q, d)) in gs[|calls|].world.objects
    && S.CanLose(gs[|calls|].world, ObjectKey(PathOf(q, d)))
  }

  /** The blob recorded in two repositories. */
  function InTwo(p: Push, q: Push, d: string): Tables {
    Referred(p, d).(paths := {PathOf(p, d), PathOf(q, d)})
  }

  function InTwoUnreferred(p: Push, q: Push, d: string): Tables {
    Unreferred(p, d, 0).(paths := {PathOf(p, d), PathOf(q, d)})
  }

  lemma TwoPushesOneDelete(p: Push, q: Push, d: string)
    requires q.tenant == p.tenant && q.manifest == p.manifest
    ensures Added(Referred(p, d), q, One(d)) == InTwo(p, q, d)
    ensures Removed(InTwo(p, q, d), p.tenant, p.manifest, 0) == InTwoUnreferred(p, q, d)
  {
    AddsOne(Referred(p, d), q, d);
    assert EdgeOf(q, d) == EdgeOf(p, d);
    assert {PathOf(p, d)} + {PathOf(q, d)} == {PathOf(p, d), PathOf(q, d)};
    Deleted(p, d, 0);
  }

  lemma ListsOne(d: string)
    ensures Lists(One(d), d)
  {
    assert One(d)[0].digest == d;
  }

  /**
   * One manifest stored in two repositories of a tenant: deleting it in the first removes
   * the only edges, and reapers may then delete the blobs of the second.
   */
  lemma TwoRepositories(c: S.Contents, p: Push, q: Push, d: string) returns (gs: seq<S.Registry>, calls: seq<S.Call>)
    requires p != q && q.tenant == p.tenant && q.manifest == p.manifest && c(p.manifest) == One(d)
    ensures StoredButLost(c, gs, calls, q, d)
    ensures calls == [S.Other(Upload(ObjectKey(PathOf(q, d)))), S.StoreManifest(p), S.Count(p), S.StoreManifest(q),
                      S.Count(q), S.DropManifest(p), S.Uncount(p, 0)]
  {
    var k, o, one := KeyOf(p, d), ObjectKey(PathOf(q, d)), Referred(p, d);
    var two, none := InTwo(p, q, d), InTwoUnreferred(p, q, d);
    Uploads(EMPTY, IDLE, o);
    PushedOnce(p, d);
    Pushes(EMPTY, {o}, IDLE, p, d, one);
    TwoPushesOneDelete(p, q, d);
    Pushes(one, {o}, IDLE, q, d, two);
    Deletes(two, {o}, IDLE, p, 0, none);
    var empty, pushed, both := Alone(EMPTY, {o}, IDLE), Alone(one, {o}, IDLE), Alone(two, {o}, IDLE);
    gs := [S.Registry(Alone(EMPTY, {}, IDLE), {}), S.Registry(empty, {}), S.Registry(empty, {p}),
           S.Registry(pushed, {p}), S.Registry(pushed, {p, q}), S.Registry(both, {p, q}), S.Registry(both, {q}),
           S.Registry(Alone(none, {o}, IDLE), {q})];
    calls := [S.Other(Upload(o)), S.StoreManifest(p), S.Count(p), S.StoreManifest(q),
              S.Count(q), S.DropManifest(p), S.Uncount(p, 0)];
    assert {} + {p} == {p} && {p} + {q} == {p, q} && {p, q} - {p} == {q};
    assert S.CallStep(c, gs[0], calls[0], gs[1]) && S.CallStep(c, gs[1], calls[1], gs[2]);
    assert S.CallStep(c, gs[2], calls[2], gs[3]) && S.CallStep(c, gs[3], calls[3], gs[4]);
    assert S.CallStep(c, gs[4], calls[4], gs[5]) && S.CallStep(c, gs[5], calls[5], gs[6]);
    assert S.CallStep(c, gs[6], calls[6], gs[7]);
    ZeroRowIsLost(c, gs, calls, q, d, k);
  }

  lemma ZeroRowIsLost(c: S.Contents, gs: seq<S.Registry>, calls: seq<S.Call>, q: Push, d: string, k: Key)
    requires S.History(c, gs, calls) && k == KeyOf(q, d)
    requires gs[|calls|].world.reapers != [] && AtZero(gs[|calls|].world.tables, k)
    requires PathOf(q, d) in gs[|calls|].world.tables.paths
    ensures S.CanLose(gs[|calls|].world, ObjectKey(PathOf(q, d)))
  {
    var w := gs[|calls|].world;
    S.HistoryIsSound(c, gs, calls, |calls|);
    assert PathOf(q, d) in PathsOf(w.tables.paths, k);
    S.ReapsAtRisk(w, ObjectKey(PathOf(q, d)), k);
  }

  /**
   * A manifest stored whose count failed has no edges either: reapers may delete a blob that
   * an earlier manifest of the repository left behind.
   */
  lemma FailedCount(c: S.Contents, p: Push, q: Push, d: string) returns (gs: seq<S.Registry>, calls: seq<S.Call>)
    requires q == p.(manifest := q.manifest) && p != q && c(p.manifest) == One(d) && Lists(c(q.manifest), d)
    ensures StoredButLost(c, gs, calls, q, d)
    ensures forall i :: 0 <= i < |calls| ==> calls[i] != S.Count(q) && calls[i] != S.DropManifest(q)
  {
    var k, o, one, none := KeyOf(p, d), ObjectKey(PathOf(q, d)), Referred(p, d), Unreferred(p, d, 0);
    Uploads(EMPTY, IDLE, o);
    PushedOnce(p, d);
    Pushes(EMPTY, {o}, IDLE, p, d, one);
    Deleted(p, d, 0);
    Deletes(one, {o}, IDLE, p, 0, none);
    var empty, pushed, idle := Alone(EMPTY, {o}, IDLE), Alone(one, {o}, IDLE), Alone(none, {o}, IDLE);
    gs := [S.Registry(Alone(EMPTY, {}, IDLE), {}), S.Registry(empty, {}), S.Registry(empty, {p}),
           S.Registry(pushed, {p}), S.Registry(pushed, {}), S.Registry(idle, {}), S.Registry(idle, {q})];
    calls := [S.Other(Upload(o)), S.StoreManifest(p), S.Count(p), S.DropManifest(p), S.Uncount(p, 0),
              S.StoreManifest(q)];
    assert {} + {p} == {p} && {p} - {p} == {} && {} + {q} == {q};
    assert S.CallStep(c, gs[0], calls[0], gs[1]) && S.CallStep(c, gs[1], calls[1], gs[2]);
    assert S.CallStep(c, gs[2], calls[2], gs[3]) && S.CallStep(c, gs[3], calls[3], gs[4]);
    assert S.CallStep(c, gs[4], calls[4], gs[5]) && S.CallStep(c, gs[5], calls[5], gs[6]);
    ZeroRowIsLost(c, gs, calls, q, d, k);
  }

  // ---- What reconciling does not repair ----

  /** A referred blob whose count has dropped to zero. */
  function TooLow(p: Push, d: string): Tables {
    Tables({EdgeOf(p, d)}, map[KeyOf(p, d) := Row(0, Some(0), 0)], {PathOf(p, d)}, [], [])
  }

  lemma TooLowIsKnown(p: Push, d: string)
    ensures R.KnownKeys(TooLow(p, d)) == {KeyOf(p, d)}
    ensures R.Observe(TooLow(p, d), KeyOf(p, d)) == R.Seen(KeyOf(p, d), Some(0), 1)
  {
    assert Manifests(TooLow(p, d).edges, KeyOf(p, d)) == {p.manifest};
  }

  /** A snapshot of the only key there is. */
  lemma OneKeySnapshot(s: Tables, k: Key)
    requires R.KnownKeys(s) == {k}
    ensures R.Snapshot(s, 1, [R.Observe(s, k)]) && R.KeysOf([R.Observe(s, k)]) == {k}
  {
    var x := R.Observe(s, k);
    R.KeysOfMore([], x);
    assert R.KeysOf([]) == {} && [] + [x] == [x];
  }

  /** One reaper and one correcting reconciler. */
  function With(s: Tables, objects: set<Place>, r: Reaper, seen: seq<R.Seen>): World {
    World(s, objects, [r], [Walker(seen, true)])
  }

  lemma Looks(s: Tables, r: Reaper, x: R.Seen)
    requires R.Snapshot(s, 1, [x])
    ensures Next(With(s, {}, r, []), Look(0, [x], true, 1), With(s, {}, r, [x]))
  {
  }

  lemma Examines(s: Tables, r: Reaper, x: R.Seen, at: int)
    ensures Next(With(s, {}, r, [x]), ExamineNext(0, at), With(R.Examine(s, x, true, at), {}, r, []))
  {
    assert [x][1..] == [];
  }

  /**
   * A full correcting pass leaves such a blob alone, and the reaper then reaps it although a
   * manifest refers to it.
   */
  lemma TooLowIsReaped(p: Push, d: string, grace: nat) returns (ws: seq<World>, acts: seq<Action>)
    ensures Runs(ws, acts) && |acts| == 4 && ws[0].tables == TooLow(p, d)
    ensures acts[0].Look? && acts[0].fix && R.KeysOf(acts[0].seen) == R.KnownKeys(ws[0].tables) && acts[1].ExamineNext?
    ensures ws[2].tables == ws[0].tables && ws[2].walkers == [Walker([], true)] && !CountsEdges(ws[2].tables)
    ensures acts[3] == ReapNext(0, Gone) && EdgeOf(p, d) in ws[4].tables.edges && KeyOf(p, d) !in ws[4].tables.rows
  {
    var s, k, now := TooLow(p, d), KeyOf(p, d), grace + 1;
    var x := R.Observe(s, k);
    TooLowIsKnown(p, d);
    OneKeySnapshot(s, k);
    Looks(s, IDLE, x);
    Examines(s, IDLE, x, 0);
    assert Count(s.rows, k) != |Manifests(s.edges, k)|;
    ws, acts := ReapsBeside(s, k, now, grace);
    ws := [With(s, {}, IDLE, []), With(s, {}, IDLE, [x])] + ws;
    acts := [Look(0, [x], true, 1), ExamineNext(0, 0)] + acts;
  }

  /** A reaper picks and reaps the only eligible row beside an idle reconciler. */
  lemma ReapsBeside(s: Tables, k: Key, now: int, grace: nat) returns (ws: seq<World>, acts: seq<Action>)
    requires s.rows.Keys == {k} && Eligible(s.rows, k, now, grace) && s.rows[k].bytes == 0
    ensures acts == [Taking1(k, now, grace), ReapNext(0, Gone)] && |ws| == 3
    ensures ws[0] == With(s, {}, IDLE, []) && Next(ws[0], acts[0], ws[1]) && Next(ws[1], acts[1], ws[2])
    ensures ws[2].tables == Reaped(s, k, 0)
  {
    assert EligibleKeys(s.rows, now, grace) == {k};
    SelectsOne(s, k, now, grace);
    assert Done(Holding(k), Gone) == DONE;
    ws := [With(s, {}, IDLE, []), With(s, {}, Holding(k), []),
           With(Reaped(s, k, 0), {} - ObjectKeys(s.paths, k), DONE, [])];
    acts := [Taking1(k, now, grace), ReapNext(0, Gone)];
  }

  /** A count of one without any edge. */
  function Orphaned(p: Push, d: string): Tables {
    Tables({}, map[KeyOf(p, d) := Row(1, None, 0)], {}, [], [])
  }

  lemma OrphanIsKnown(p: Push, d: string)
    ensures R.KnownKeys(Orphaned(p, d)) == {KeyOf(p, d)}
    ensures R.Observe(Orphaned(p, d), KeyOf(p, d)) == R.Seen(KeyOf(p, d), Some(1), 0)
  {
    assert Manifests(Orphaned(p, d).edges, KeyOf(p, d)) == {};
  }

  lemma OrphanIsPushed(p: Push, d: string, at: int)
    ensures var t := Added(Orphaned(p, d), p, One(d));
            var u := R.Examine(t, R.Seen(KeyOf(p, d), Some(1), 0), true, at);
            EdgeOf(p, d) in u.edges && KeyOf(p, d) in u.rows && u.rows[KeyOf(p, d)] == Row(0, Some(at), 0)
  {
    AddsOne(Orphaned(p, d), p, d);
    assert AddOne(Orphaned(p, d), p, Blob(d, 0)).rows[KeyOf(p, d)] == Row(2, None, 0);
  }

  /** A correction from a snapshot taken before a push sets the count of the pushed blob to zero. */
  lemma StaleCorrectionZeroesLive(p: Push, d: string, at: int) returns (ws: seq<World>, acts: seq<Action>)
    ensures Runs(ws, acts) && |acts| == 3 && ws[0].tables == Orphaned(p, d)
    ensures acts[0].Look? && acts[1] == AddRefs(p, One(d)) && acts[2] == ExamineNext(0, at)
    ensures EdgeOf(p, d) in ws[3].tables.edges && KeyOf(p, d) in ws[3].tables.rows
    ensures ws[3].tables.rows[KeyOf(p, d)] == Row(0, Some(at), 0)
  {
    var s := Orphaned(p, d);
    var x, t := R.Observe(s, KeyOf(p, d)), Added(s, p, One(d));
    OrphanIsKnown(p, d);
    OneKeySnapshot(s, KeyOf(p, d));
    OrphanIsPushed(p, d, at);
    Looks(s, IDLE, x);
    Examines(t, IDLE, x, at);
    var w0, w1, w2 := With(s, {}, IDLE, []), With(s, {}, IDLE, [x]), With(t, {}, IDLE, [x]);
    var w3 := With(R.Examine(t, x, true, at), {}, IDLE, []);
    assert Next(w1, AddRefs(p, One(d)), w2);
    Chain([w0], [], Look(0, [x], true, 1), AddRefs(p, One(d)), ExamineNext(0, at), w1, w2, w3);
    ws := [w0] + [w1, w2, w3];
    acts := [] + [Look(0, [x], true, 1), AddRefs(p, One(d)), ExamineNext(0, at)];
  }
}
