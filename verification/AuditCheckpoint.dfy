/**
 * Incremental export of the audit log with Merkle checkpoints
 * (crates/specton-audit/src/checkpoint.rs, `export_range` in export.rs).
 *
 * Destination writes and checkpoint inserts may fail at will: each call of
 * `export_pending` carries the two outcomes the environment picked for it.
 */
module AuditCheckpoint {
  import opened Common
  import opened AuditEvents
  import opened AuditLog
  import opened AuditExport
  import opened AuditNames
  import Hex
  import Merkle

  datatype Checkpoint = Checkpoint(id: int, rangeFrom: int, rangeTo: int, root: Bytes, exportedTo: Option<string>)

  datatype ExportResult = ExportResult(rangeFrom: int, rangeTo: int, merkleRoot: string, exportedTo: string,
                                       rowCount: nat, compressed: bool)

  /** Everything outside the exporter: hashing, JSON, compression and the URIs of objects. */
  datatype Env = Env(h: Pairing, enc: ExportLine -> Bytes, zip: Bytes -> Option<Bytes>, uri: string -> string)

  /** How one export is made: compressed or not, and when. */
  datatype How = How(compress: bool, at: Stamp)

  // ---- Fetching a range ----

  function Find(rows: seq<Row>, id: int): Option<Row> {
    if rows == [] then None else if rows[0].id == id then Some(rows[0]) else Find(rows[1..], id)
  }

  /** One lookup per id of the range; ids that are not stored are skipped. */
  function Fetch(rows: seq<Row>, from: int, to: int): seq<Row>
    decreases (to - from)
  {
    if to < from then []
    else
      var row := Find(rows, to);
      Fetch(rows, from, to - 1) + if row.Some? then [row.value] else []
  }

  function Insert(sorted: seq<Row>, row: Row): seq<Row> {
    if sorted == [] || sorted[|sorted| - 1].id <= row.id then sorted + [row]
    else Insert(sorted[..|sorted| - 1], row) + [sorted[|sorted| - 1]]
  }

  /** A stable sort by id. */
  function SortById(rows: seq<Row>): seq<Row> {
    if rows == [] then [] else Insert(SortById(rows[..|rows| - 1]), rows[|rows| - 1])
  }

  lemma {:induction false} SortKeepsAscending(rows: seq<Row>)
    requires Ascending(rows)
    ensures SortById(rows) == rows
  {
    if rows != [] {
      var front, last := rows[..|rows| - 1], rows[|rows| - 1];
      SortKeepsAscending(front);
      InsertsLast(front, last);
      assert rows == front + [last];
    }
  }

  lemma InsertsLast(sorted: seq<Row>, row: Row)
    requires sorted == [] || sorted[|sorted| - 1].id <= row.id
    ensures Insert(sorted, row) == sorted + [row]
  {
  }

  lemma {:induction false} FindGapless(rows: seq<Row>, base: int, id: int)
    requires forall i :: 0 <= i < |rows| ==> rows[i].id == base + i
    ensures Find(rows, id) == if base <= id < base + |rows| then Some(rows[id - base]) else None
  {
    if rows != [] && rows[0].id != id {
      FindGapless(rows[1..], base + 1, id);
    }
  }

  lemma {:induction false} FetchGapless(rows: seq<Row>, from: int, to: int)
    requires Gapless(rows) && 1 <= from <= to + 1 <= |rows| + 1
    ensures Fetch(rows, from, to) == rows[from - 1..to]
    decreases (to)
  {
    if from == to + 1 {
      assert rows[from - 1..to] == [];
    } else {
      FindGapless(rows, 1, to);
      FetchesLast(rows, from, to);
      FetchGapless(rows, from, to - 1);
      SliceGrows(rows, from - 1, to - 1);
    }
  }

  lemma FetchesLast(rows: seq<Row>, from: int, to: int)
    requires from <= to && Find(rows, to).Some?
    ensures Fetch(rows, from, to) == Fetch(rows, from, to - 1) + [Find(rows, to).value]
  {
  }

  lemma SliceGrows(rows: seq<Row>, lo: nat, hi: nat)
    requires lo <= hi < |rows|
    ensures rows[lo..hi + 1] == rows[lo..hi] + [rows[hi]]
  {
  }

  /** Any log: the range holds, for each id in it that is stored, the first row with that id, in id order. */
  lemma {:induction false} FetchExactly(rows: seq<Row>, from: int, to: int)
    ensures var found := Fetch(rows, from, to);
            && Ascending(found)
            && (forall r :: r in found ==> from <= r.id <= to && Find(rows, r.id) == Some(r))
            && (forall id :: from <= id <= to && Find(rows, id).Some? ==> Find(rows, id).value in found)
    decreases (to - from)
  {
    if from <= to {
      FetchExactly(rows, from, to - 1);
      FindHasId(rows, to);
      var front, row := Fetch(rows, from, to - 1), Find(rows, to);
      if row.Some? {
        AscendingMore(front, row.value);
        assert (front + [row.value])[|front|] == row.value;
      }
      forall id | from <= id <= to && Find(rows, id).Some?
        ensures Find(rows, id).value in Fetch(rows, from, to)
      {
        if id < to {
          assert Find(rows, id).value in front;
        }
      }
    }
  }

  lemma {:induction false} FindHasId(rows: seq<Row>, id: int)
    ensures Find(rows, id).Some? ==> Find(rows, id).value.id == id && Find(rows, id).value in rows
  {
    if rows != [] && rows[0].id != id {
      FindHasId(rows[1..], id);
    }
  }

  lemma AscendingMore(rows: seq<Row>, row: Row)
    requires Ascending(rows) && forall r :: r in rows ==> r.id < row.id
    ensures Ascending(rows + [row])
  {
  }

  // ---- One export ----

  datatype Plan = Plan(rangeFrom: int, rangeTo: int, root: Hash32, key: string, body: Bytes, rowCount: nat,
                       compressed: bool)

  function MaybeCompress(env: Env, jsonl: Bytes, compress: bool): Option<Bytes> {
    if compress then env.zip(jsonl) else Some(jsonl)
  }

  function PlanRows(env: Env, rows: seq<Row>, how: How): Result<Plan, ExportError>
    requires rows != []
  {
    var root := RootForRows(env.h, rows);
    var body := MaybeCompress(env, Jsonl(env.enc, rows), how.compress);
    var from, to := rows[0].id, rows[|rows| - 1].id;
    if root.Err? then Err(root.error)
    else if body.None? then Err(CompressFailed)
    else Ok(Plan(from, to, root.value, ExportKey(how.at, from, to, how.compress), body.value, |rows|, how.compress))
  }

  /** What `export_range` would write, before it is written. */
  function PlanExport(env: Env, rows: seq<Row>, from: int, to: int, how: How): Result<Plan, ExportError> {
    if to < from then Err(Empty)
    else
      var found := SortById(Fetch(rows, from, to));
      if found == [] then Err(Empty) else PlanRows(env, found, how)
  }

  function ResultOf(env: Env, p: Plan): ExportResult {
    ExportResult(p.rangeFrom, p.rangeTo, Hex.Encode(p.root), env.uri(p.key), p.rowCount, p.compressed)
  }

  const NEWEST_ONE := Query(None, None, None, None, None, 1)

  /** The newest id, asked for through a page of one. */
  function TipId(rows: seq<Row>): Option<int> {
    var page := Newest(rows, NEWEST_ONE, 1);
    if page == [] then None else Some(page[0].id)
  }

  function NextFrom(checkpoints: seq<Checkpoint>): int {
    if checkpoints == [] then 1 else checkpoints[|checkpoints| - 1].rangeTo + 1
  }

  datatype World = World(log: Log, checkpoints: seq<Checkpoint>, nextId: int, objects: map<string, Bytes>)

  datatype Faults = Faults(putOk: bool, insertOk: bool)

  function PlanPending(env: Env, w: World, how: How): Result<Plan, ExportError> {
    var tip := TipId(w.log.rows);
    if tip.None? || tip.value < NextFrom(w.checkpoints) then Err(Empty)
    else PlanExport(env, w.log.rows, NextFrom(w.checkpoints), tip.value, how)
  }

  /** Write the object, then insert the checkpoint; a failed insert leaves the object behind. */
  function Commit(env: Env, w: World, plan: Result<Plan, ExportError>, f: Faults): World {
    if plan.Err? || !f.putOk then w
    else
      var p := plan.value;
      var stored := w.(objects := w.objects[p.key := p.body]);
      if !f.insertOk then stored
      else stored.(nextId := w.nextId + 1,
                   checkpoints := w.checkpoints + [Checkpoint(w.nextId + 1, p.rangeFrom, p.rangeTo, p.root,
                       Some(env.uri(p.key)))])
  }

  function Answer(env: Env, plan: Result<Plan, ExportError>, f: Faults): Result<ExportResult, ExportError> {
    if plan.Err? then Err(plan.error)
    else if !f.putOk then Err(PutFailed)
    else if !f.insertOk then Err(InsertFailed)
    else Ok(ResultOf(env, plan.value))
  }

  function AfterExport(env: Env, w: World, how: How, f: Faults): World {
    Commit(env, w, PlanPending(env, w, how), f)
  }

  // ---- Every serial run ----

  datatype Action = Log(op: Op) | Export(how: How, faults: Faults)

  function Act(mac: Mac, env: Env, w: World, a: Action): World {
    match a
    case Log(op) => w.(log := Step(mac, w.log, op))
    case Export(how, f) => AfterExport(env, w, how, f)
  }

  function Runs(mac: Mac, env: Env, w: World, actions: seq<Action>): World
    decreases |actions|
  {
    if actions == [] then w else Runs(mac, env, Act(mac, env, w, actions[0]), actions[1..])
  }

  ghost predicate ActionsKeepKeys(mac: Mac, env: Env, w: World, actions: seq<Action>)
    decreases |actions|
  {
    actions == []
        || ((actions[0].Log? ==> KeepsKeys(w.log, actions[0].op))
            && ActionsKeepKeys(mac, env, Act(mac, env, w, actions[0]), actions[1..]))
  }

  function NewWorld(key: Bytes, keyId: string): World {
    World(NewLog(key, keyId), [], 0, map[])
  }

  /** What was done to the log. */
  function OpsOf(actions: seq<Action>): seq<Op> {
    if actions == [] then []
    else if actions[0].Log? then [actions[0].op] + OpsOf(actions[1..])
    else OpsOf(actions[1..])
  }

  /** Exports come and go without touching the log: it is what its own operations made it. */
  lemma {:induction false} ExportsLeaveTheLog(mac: Mac, env: Env, w: World, actions: seq<Action>)
    ensures Runs(mac, env, w, actions).log == Run(mac, w.log, OpsOf(actions))
    decreases |actions|
  {
    if actions != [] {
      ExportsLeaveTheLog(mac, env, Act(mac, env, w, actions[0]), actions[1..]);
      if actions[0].Log? {
        assert OpsOf(actions)[1..] == OpsOf(actions[1..]);
      }
    }
  }

  /** A checkpoint's range starts where the one before ended and its root is that of exactly its rows. */
  ghost predicate Faithful(h: Pairing, rows: seq<Row>, cps: seq<Checkpoint>, i: nat)
    requires i < |cps|
  {
    var cp := cps[i];
    && cp.id == i + 1
    && cp.rangeFrom == NextFrom(cps[..i])
    && 1 <= cp.rangeFrom <= cp.rangeTo <= |rows|
    && RootForRows(h, rows[cp.rangeFrom - 1..cp.rangeTo]) == Ok(cp.root)
  }

  ghost predicate Covered(mac: Mac, h: Pairing, w: World) {
    && Linked(mac, w.log)
    && w.nextId == |w.checkpoints|
    && forall i :: 0 <= i < |w.checkpoints| ==> Faithful(h, w.log.rows, w.checkpoints, i)
  }

  lemma NextFromInRange(mac: Mac, h: Pairing, w: World)
    requires Covered(mac, h, w)
    ensures 1 <= NextFrom(w.checkpoints) <= |w.log.rows| + 1
  {
    if w.checkpoints != [] {
      assert Faithful(h, w.log.rows, w.checkpoints, |w.checkpoints| - 1);
    }
  }

  lemma TipOfGapless(rows: seq<Row>)
    requires Gapless(rows)
    ensures TipId(rows) == if rows == [] then None else Some(|rows|)
  {
  }

  /** The rows after the last checkpoint. */
  function Rest(w: World): seq<Row> {
    var from := NextFrom(w.checkpoints);
    if 1 <= from <= |w.log.rows| then w.log.rows[from - 1..] else []
  }

  lemma PlanOfSuffix(env: Env, rows: seq<Row>, from: int, how: How)
    requires Gapless(rows) && 1 <= from <= |rows|
    ensures PlanExport(env, rows, from, |rows|, how) == PlanRows(env, rows[from - 1..], how)
  {
    FetchGapless(rows, from, |rows|);
    assert rows[from - 1..|rows|] == rows[from - 1..];
    SortKeepsAscending(rows[from - 1..]);
  }

  /** What a pending export covers on a covered world: every row after the last checkpoint. */
  lemma PendingIsTheRest(mac: Mac, env: Env, w: World, how: How)
    requires Covered(mac, env.h, w)
    ensures PlanPending(env, w, how) == if Rest(w) == [] then Err(Empty) else PlanRows(env, Rest(w), how)
  {
    var rows, from := w.log.rows, NextFrom(w.checkpoints);
    NextFromInRange(mac, env.h, w);
    LinkedIsGapless(mac, w.log);
    TipOfGapless(rows);
    if from <= |rows| {
      PlanOfSuffix(env, rows, from, how);
    }
  }

  lemma RestEnds(mac: Mac, h: Pairing, w: World)
    requires Covered(mac, h, w) && Rest(w) != []
    ensures 1 <= NextFrom(w.checkpoints) <= |w.log.rows|
    ensures Rest(w)[0].id == NextFrom(w.checkpoints) && Rest(w)[|Rest(w)| - 1].id == |w.log.rows|
    ensures Rest(w) == w.log.rows[NextFrom(w.checkpoints) - 1..|w.log.rows|]
    ensures forall i :: 0 <= i < |Rest(w)| ==> |Rest(w)[i].rowHash| == 32
  {
    LinkedIsGapless(mac, w.log);
    var from := NextFrom(w.checkpoints);
    forall i | 0 <= i < |Rest(w)|
      ensures |Rest(w)[i].rowHash| == 32
    {
      assert LinkedRow(mac, w.log, from - 1 + i);
    }
  }

  lemma StepKeepsFaithful(h: Pairing, rows: seq<Row>, more: seq<Row>, cps: seq<Checkpoint>, i: nat)
    requires i < |cps| && rows <= more && Faithful(h, rows, cps, i)
    ensures Faithful(h, more, cps, i)
  {
    assert more[cps[i].rangeFrom - 1..cps[i].rangeTo] == rows[cps[i].rangeFrom - 1..cps[i].rangeTo];
  }

  lemma AppendGrows(mac: Mac, log: Log, op: Op)
    ensures log.rows <= Step(mac, log, op).rows
  {
  }

  lemma SnocKeepsFaithful(h: Pairing, rows: seq<Row>, cps: seq<Checkpoint>, cp: Checkpoint)
    requires forall i :: 0 <= i < |cps| ==> Faithful(h, rows, cps, i)
    requires cp.id == |cps| + 1 && cp.rangeFrom == NextFrom(cps) && 1 <= cp.rangeFrom <= cp.rangeTo <= |rows|
    requires RootForRows(h, rows[cp.rangeFrom - 1..cp.rangeTo]) == Ok(cp.root)
    ensures forall i :: 0 <= i <= |cps| ==> Faithful(h, rows, cps + [cp], i)
  {
    forall i | 0 <= i <= |cps|
      ensures Faithful(h, rows, cps + [cp], i)
    {
      if i < |cps| {
        assert Faithful(h, rows, cps, i);
        assert (cps + [cp])[..i] == cps[..i];
      } else {
        assert (cps + [cp])[..i] == cps;
      }
    }
  }

  /** A plan for the rest of the log. */
  ghost predicate PlansRest(h: Pairing, w: World, p: Plan) {
    && 1 <= NextFrom(w.checkpoints) <= |w.log.rows|
    && p.rangeFrom == NextFrom(w.checkpoints) && p.rangeTo == |w.log.rows|
    && RootForRows(h, w.log.rows[p.rangeFrom - 1..p.rangeTo]) == Ok(p.root)
  }

  lemma RowsPlanRest(mac: Mac, env: Env, w: World, how: How, p: Plan)
    requires Covered(mac, env.h, w) && Rest(w) != [] && PlanRows(env, Rest(w), how) == Ok(p)
    ensures PlansRest(env.h, w, p)
  {
    RestEnds(mac, env.h, w);
    PlanOfRows(env, Rest(w), how);
  }

  lemma PlanOfRows(env: Env, rows: seq<Row>, how: How)
    requires rows != [] && PlanRows(env, rows, how).Ok?
    ensures var p := PlanRows(env, rows, how).value;
            && p.rangeFrom == rows[0].id && p.rangeTo == rows[|rows| - 1].id && RootForRows(env.h, rows) == Ok(p.root)
            && p.key == ExportKey(how.at, p.rangeFrom, p.rangeTo, how.compress)
            && MaybeCompress(env, Jsonl(env.enc, rows), how.compress) == Some(p.body)
            && p.rowCount == |rows| && p.compressed == how.compress
  {
  }

  lemma CommitKeepsCovered(mac: Mac, env: Env, w: World, p: Plan, f: Faults)
    requires Covered(mac, env.h, w) && PlansRest(env.h, w, p)
    ensures Covered(mac, env.h, Commit(env, w, Ok(p), f))
  {
    SnocKeepsFaithful(env.h, w.log.rows, w.checkpoints,
                      Checkpoint(w.nextId + 1, p.rangeFrom, p.rangeTo, p.root, Some(env.uri(p.key))));
  }

  lemma ExportKeepsCovered(mac: Mac, env: Env, w: World, how: How, f: Faults)
    requires Covered(mac, env.h, w)
    ensures Covered(mac, env.h, AfterExport(env, w, how, f))
  {
    var plan := PlanPending(env, w, how);
    if plan.Ok? {
      PendingIsTheRest(mac, env, w, how);
      RowsPlanRest(mac, env, w, how, plan.value);
      CommitKeepsCovered(mac, env, w, plan.value, f);
    }
  }

  lemma ActKeepsCovered(mac: Mac, env: Env, w: World, a: Action)
    requires Covered(mac, env.h, w) && (a.Log? ==> KeepsKeys(w.log, a.op))
    ensures Covered(mac, env.h, Act(mac, env, w, a))
  {
    match a
    case Log(op) =>
      StepKeepsLinked(mac, w.log, op);
      AppendGrows(mac, w.log, op);
      forall i | 0 <= i < |w.checkpoints|
        ensures Faithful(env.h, Step(mac, w.log, op).rows, w.checkpoints, i)
      {
        StepKeepsFaithful(env.h, w.log.rows, Step(mac, w.log, op).rows, w.checkpoints, i);
      }
    case Export(how, f) =>
      ExportKeepsCovered(mac, env, w, how, f);
  }

  lemma {:induction false} RunsKeepCovered(mac: Mac, env: Env, w: World, actions: seq<Action>)
    requires Covered(mac, env.h, w) && ActionsKeepKeys(mac, env, w, actions)
    ensures Covered(mac, env.h, Runs(mac, env, w, actions))
    decreases |actions|
  {
    if actions != [] {
      ActKeepsCovered(mac, env, w, actions[0]);
      RunsKeepCovered(mac, env, Act(mac, env, w, actions[0]), actions[1..]);
    }
  }

  ghost predicate Covers(cp: Checkpoint, id: int) {
    cp.rangeFrom <= id <= cp.rangeTo
  }

  ghost predicate CoveredId(cps: seq<Checkpoint>, id: int) {
    exists i :: 0 <= i < |cps| && Covers(cps[i], id)
  }

  lemma {:induction false} RangesAscend(h: Pairing, rows: seq<Row>, cps: seq<Checkpoint>, i: nat, j: nat)
    requires forall k :: 0 <= k < |cps| ==> Faithful(h, rows, cps, k)
    requires i < j < |cps|
    ensures cps[i].rangeTo < cps[j].rangeFrom
    decreases j
  {
    assert Faithful(h, rows, cps, j) && cps[..j][j - 1] == cps[j - 1];
    if i < j - 1 {
      RangesAscend(h, rows, cps, i, j - 1);
      assert Faithful(h, rows, cps, j - 1);
    }
  }

  lemma {:induction false} SomeRangeCovers(h: Pairing, rows: seq<Row>, cps: seq<Checkpoint>, n: nat, id: int)
    returns (i: nat)
    requires forall k :: 0 <= k < |cps| ==> Faithful(h, rows, cps, k)
    requires n <= |cps| && 1 <= id < NextFrom(cps[..n])
    ensures i < n && Covers(cps[i], id)
    decreases n
  {
    assert cps[..n][n - 1] == cps[n - 1] && Faithful(h, rows, cps, n - 1);
    if id >= cps[n - 1].rangeFrom {
      i := n - 1;
    } else {
      i := SomeRangeCovers(h, rows, cps, n - 1, id);
    }
  }

  /**
   * After every serial run of appends, rotations and exports, whatever failed: row ids
   * are 1 to n, checkpoint ranges are back to back from id 1 and stop at or before the tip,
   * each root is the Merkle root of exactly the rows of its range, and every id up
   * to the last checkpoint lies in exactly one range.
   */
  lemma EveryRunIsCovered(mac: Mac, env: Env, key: Bytes, keyId: string, actions: seq<Action>)
    requires ActionsKeepKeys(mac, env, NewWorld(key, keyId), actions)
    ensures var w := Runs(mac, env, NewWorld(key, keyId), actions);
            && Gapless(w.log.rows)
            && (forall i :: 0 <= i < |w.checkpoints| ==> Faithful(env.h, w.log.rows, w.checkpoints, i))
            && (forall id :: 1 <= id < NextFrom(w.checkpoints) ==> CoveredId(w.checkpoints, id))
            && (forall id, i, j | 0 <= i < |w.checkpoints| && 0 <= j < |w.checkpoints| ::
                  Covers(w.checkpoints[i], id) && Covers(w.checkpoints[j], id) ==> i == j)
  {
    RunsKeepCovered(mac, env, NewWorld(key, keyId), actions);
    var w := Runs(mac, env, NewWorld(key, keyId), actions);
    var cps, rows := w.checkpoints, w.log.rows;
    LinkedIsGapless(mac, w.log);
    forall id | 1 <= id < NextFrom(cps)
      ensures CoveredId(cps, id)
    {
      assert cps[..|cps|] == cps;
      var i := SomeRangeCovers(env.h, rows, cps, |cps|, id);
    }
    forall id, i, j | 0 <= i < |cps| && 0 <= j < |cps| && Covers(cps[i], id) && Covers(cps[j], id)
      ensures i == j
    {
      if i < j {
        RangesAscend(env.h, rows, cps, i, j);
      } else if j < i {
        RangesAscend(env.h, rows, cps, j, i);
      }
    }
  }

  lemma CommitStores(env: Env, w: World, p: Plan)
    ensures var next := Commit(env, w, Ok(p), Faults(true, true));
            && |next.checkpoints| == |w.checkpoints| + 1
            && next.checkpoints[|w.checkpoints|].rangeFrom == p.rangeFrom
            && next.checkpoints[|w.checkpoints|].rangeTo == p.rangeTo
            && next.checkpoints[|w.checkpoints|].root == p.root
            && p.key in next.objects && next.objects[p.key] == p.body
  {
  }

  /** The plan for the rest carries bytes that check to its root. */
  /** Lines that read back one by one read back to the root of their rows. */
  lemma SliceReadsBack(env: Env, dec: Bytes -> Option<ExportLine>, rows: seq<Row>, lo: nat, hi: nat)
    requires lo < hi <= |rows| && RootForRows(env.h, rows[lo..hi]).Ok?
    requires forall i :: 0 <= i < |rows| ==> Reads(env.enc, dec, LineOf(rows[i]))
    ensures VerifyExport(dec, env.h, Jsonl(env.enc, rows[lo..hi])) == RootForRows(env.h, rows[lo..hi])
  {
    var slice := rows[lo..hi];
    forall i | 0 <= i < |slice|
      ensures Reads(env.enc, dec, LineOf(slice[i]))
    {
      assert slice[i] == rows[lo + i];
    }
    RowLeavesAreHashes(slice);
    VerifyReadsWhatEncodeWrote(env.enc, dec, env.h, slice);
  }

  lemma RestReadsBack(mac: Mac, env: Env, dec: Bytes -> Option<ExportLine>, w: World, at: Stamp)
    requires Covered(mac, env.h, w) && 1 <= NextFrom(w.checkpoints) <= |w.log.rows|
    requires forall i :: 0 <= i < |w.log.rows| ==> Reads(env.enc, dec, LineOf(w.log.rows[i]))
    ensures Rest(w) != []
    ensures var plan := PlanRows(env, Rest(w), How(false, at));
            && plan.Ok? && VerifyExport(dec, env.h, plan.value.body) == Ok(plan.value.root)
            && plan.value.key == ExportKey(at, plan.value.rangeFrom, plan.value.rangeTo, false)
  {
    RestEnds(mac, env.h, w);
    RowLeavesAreHashes(Rest(w));
    SliceReadsBack(env, dec, w.log.rows, NextFrom(w.checkpoints) - 1, |w.log.rows|);
  }

  /**
   * A successful uncompressed export leaves an object that checks to the root of
   * its checkpoint, and that checkpoint takes in every row not covered before.
   */
  lemma ExportChecksToItsRoot(mac: Mac, env: Env, dec: Bytes -> Option<ExportLine>, w: World, at: Stamp)
    requires Covered(mac, env.h, w) && NextFrom(w.checkpoints) <= |w.log.rows|
    requires forall i :: 0 <= i < |w.log.rows| ==> Reads(env.enc, dec, LineOf(w.log.rows[i]))
    ensures PlanPending(env, w, How(false, at)).Ok?
    ensures var next := AfterExport(env, w, How(false, at), Faults(true, true));
            && |next.checkpoints| == |w.checkpoints| + 1
            && var cp := next.checkpoints[|w.checkpoints|];
               var key := ExportKey(at, cp.rangeFrom, cp.rangeTo, false);
               && cp.rangeTo == |w.log.rows|
               && key in next.objects
               && VerifyExport(dec, env.h, next.objects[key]) == Ok(cp.root)
  {
    NextFromInRange(mac, env.h, w);
    RestReadsBack(mac, env, dec, w, at);
    PendingIsTheRest(mac, env, w, How(false, at));
    var plan := PlanPending(env, w, How(false, at));
    RowsPlanRest(mac, env, w, How(false, at), plan.value);
    CommitStores(env, w, plan.value);
  }

  // ---- What a caller is told ----

  /** Nothing is left to export, or how far the export gets: compression, the write, the insert. */
  lemma ExportFailsExactly(mac: Mac, env: Env, w: World, how: How, f: Faults)
    requires Covered(mac, env.h, w)
    ensures var a := Answer(env, PlanPending(env, w, how), f);
            if NextFrom(w.checkpoints) > |w.log.rows| then a == Err(Empty)
            else if how.compress && env.zip(Jsonl(env.enc, Rest(w))).None? then
              a == Err(CompressFailed)
            else if !f.putOk then a == Err(PutFailed)
            else if !f.insertOk then a == Err(InsertFailed)
            else a.Ok?
  {
    PendingIsTheRest(mac, env, w, how);
    NextFromInRange(mac, env.h, w);
    if Rest(w) != [] {
      RestEnds(mac, env.h, w);
      RowLeavesAreHashes(Rest(w));
    }
  }

  /** The answer agrees with the new checkpoint: range, number of rows, root, place and format. */
  ghost predicate AnswerMatches(env: Env, w: World, v: World, how: How, res: ExportResult) {
    && |v.checkpoints| == |w.checkpoints| + 1 && v.checkpoints[..|w.checkpoints|] == w.checkpoints
    && var cp := v.checkpoints[|w.checkpoints|];
       && cp.id == |v.checkpoints| && v.log == w.log
       && res.rangeFrom == cp.rangeFrom == NextFrom(w.checkpoints) && res.rangeTo == cp.rangeTo == |w.log.rows|
       && res.rowCount == cp.rangeTo - cp.rangeFrom + 1 && res.compressed == how.compress
       && Hex.Decode(res.merkleRoot) == Some(cp.root)
       && cp.exportedTo == Some(res.exportedTo)
       && res.exportedTo == env.uri(ExportKey(how.at, cp.rangeFrom, cp.rangeTo, how.compress))
  }

  lemma ExportAnswers(mac: Mac, env: Env, w: World, how: How, f: Faults)
    requires Covered(mac, env.h, w) && Answer(env, PlanPending(env, w, how), f).Ok?
    ensures AnswerMatches(env, w, AfterExport(env, w, how, f), how, Answer(env, PlanPending(env, w, how), f).value)
  {
    PendingIsTheRest(mac, env, w, how);
    RestEnds(mac, env.h, w);
    PlanOfRows(env, Rest(w), how);
    var p := PlanRows(env, Rest(w), how).value;
    Hex.RoundTrip(p.root);
    AnswerOfPlan(env, w, how, f, p);
  }

  lemma AnswerOfPlan(env: Env, w: World, how: How, f: Faults, p: Plan)
    requires f.putOk && f.insertOk && w.nextId == |w.checkpoints|
    requires p.rangeFrom == NextFrom(w.checkpoints) && p.rangeTo == |w.log.rows|
    requires p.rowCount == p.rangeTo - p.rangeFrom + 1 && p.compressed == how.compress
    requires p.key == ExportKey(how.at, p.rangeFrom, p.rangeTo, how.compress)
    requires Hex.Decode(Hex.Encode(p.root)) == Some(p.root)
    ensures AnswerMatches(env, w, Commit(env, w, Ok(p), f), how, ResultOf(env, p))
  {
  }

  // ---- Exports stay readable ----

  /** The name of the object of an export of the checkpoint's range. */
  function KeyOf(cp: Checkpoint, how: How): string {
    ExportKey(how.at, cp.rangeFrom, cp.rangeTo, how.compress)
  }

  /** The object of checkpoint `i` holds exactly the lines of its rows. */
  ghost predicate ShippedAs(env: Env, w: World, i: nat, how: How)
    requires i < |w.checkpoints|
  {
    var cp := w.checkpoints[i];
    var key := KeyOf(cp, how);
    && 1 <= cp.rangeFrom <= cp.rangeTo <= |w.log.rows|
    && key in w.objects && cp.exportedTo == Some(env.uri(key))
    && MaybeCompress(env, Jsonl(env.enc, w.log.rows[cp.rangeFrom - 1..cp.rangeTo]), how.compress) ==
       Some(w.objects[key])
  }

  ghost predicate Shipped(env: Env, w: World, i: nat)
    requires i < |w.checkpoints|
  {
    exists how: How :: ShippedAs(env, w, i, how)
  }

  ghost predicate AllShipped(env: Env, w: World) {
    forall i :: 0 <= i < |w.checkpoints| ==> Shipped(env, w, i)
  }

  lemma StaysShippedAs(env: Env, w: World, v: World, i: nat, how: How)
    requires i < |w.checkpoints| && ShippedAs(env, w, i, how) && w.log.rows <= v.log.rows
    requires i < |v.checkpoints| && v.checkpoints[i] == w.checkpoints[i]
    requires var key := KeyOf(w.checkpoints[i], how); key in v.objects && v.objects[key] == w.objects[key]
    ensures ShippedAs(env, v, i, how)
  {
    SliceOfPrefix(w.log.rows, v.log.rows, w.checkpoints[i].rangeFrom - 1, w.checkpoints[i].rangeTo);
  }

  lemma SliceOfPrefix(rows: seq<Row>, more: seq<Row>, lo: nat, hi: nat)
    requires rows <= more && lo <= hi <= |rows|
    ensures more[lo..hi] == rows[lo..hi]
  {
  }

  lemma LogKeepsShipped(mac: Mac, env: Env, w: World, op: Op)
    requires AllShipped(env, w)
    ensures AllShipped(env, w.(log := Step(mac, w.log, op)))
  {
    var v := w.(log := Step(mac, w.log, op));
    AppendGrows(mac, w.log, op);
    forall i | 0 <= i < |v.checkpoints|
      ensures Shipped(env, v, i)
    {
      assert Shipped(env, w, i);
      var how: How :| ShippedAs(env, w, i, how);
      StaysShippedAs(env, w, v, i, how);
    }
  }

  /** Earlier ranges start before the next one. */
  lemma NextIsNew(mac: Mac, h: Pairing, w: World, i: nat)
    requires Covered(mac, h, w) && i < |w.checkpoints|
    ensures w.checkpoints[i].rangeFrom < NextFrom(w.checkpoints)
  {
    var last := |w.checkpoints| - 1;
    assert Faithful(h, w.log.rows, w.checkpoints, last) && Faithful(h, w.log.rows, w.checkpoints, i);
    if i < last {
      RangesAscend(h, w.log.rows, w.checkpoints, i, last);
    }
  }

  /** A plan names its object after its range and carries the lines of the rest of the log. */
  ghost predicate CarriesRest(env: Env, w: World, p: Plan, how: How) {
    && PlansRest(env.h, w, p) && p.key == ExportKey(how.at, p.rangeFrom, p.rangeTo, how.compress)
    && MaybeCompress(env, Jsonl(env.enc, w.log.rows[p.rangeFrom - 1..p.rangeTo]), how.compress) == Some(p.body)
  }

  lemma PendingCarriesRest(mac: Mac, env: Env, w: World, how: How, p: Plan)
    requires Covered(mac, env.h, w) && Rest(w) != [] && PlanRows(env, Rest(w), how) == Ok(p)
    ensures CarriesRest(env, w, p, how)
  {
    RestEnds(mac, env.h, w);
    PlanOfRows(env, Rest(w), how);
  }

  lemma OldStaysShipped(mac: Mac, env: Env, w: World, p: Plan, how: How, f: Faults, i: nat)
    requires Covered(mac, env.h, w) && CarriesRest(env, w, p, how) && i < |w.checkpoints|
             && Shipped(env, w, i)
    ensures i < |Commit(env, w, Ok(p), f).checkpoints| && Shipped(env, Commit(env, w, Ok(p), f), i)
  {
    var v := Commit(env, w, Ok(p), f);
    var old': How :| ShippedAs(env, w, i, old');
    var cp := w.checkpoints[i];
    NextIsNew(mac, env.h, w, i);
    KeysDiffer(old'.at, cp.rangeFrom, cp.rangeTo, old'.compress, how.at, p.rangeFrom, p.rangeTo, how.compress);
    StaysShippedAs(env, w, v, i, old');
  }

  lemma CommitKeepsShipped(mac: Mac, env: Env, w: World, p: Plan, how: How, f: Faults)
    requires Covered(mac, env.h, w) && CarriesRest(env, w, p, how) && AllShipped(env, w)
    ensures AllShipped(env, Commit(env, w, Ok(p), f))
  {
    var v := Commit(env, w, Ok(p), f);
    forall i | 0 <= i < |v.checkpoints|
      ensures Shipped(env, v, i)
    {
      if i < |w.checkpoints| {
        OldStaysShipped(mac, env, w, p, how, f, i);
      } else {
        assert ShippedAs(env, v, i, how);
      }
    }
  }

  lemma ActKeepsShipped(mac: Mac, env: Env, w: World, a: Action)
    requires Covered(mac, env.h, w) && AllShipped(env, w)
    ensures AllShipped(env, Act(mac, env, w, a))
  {
    match a {
      case Log(op) => LogKeepsShipped(mac, env, w, op);
      case Export(how, f) =>
        var plan := PlanPending(env, w, how);
        PendingIsTheRest(mac, env, w, how);
        if plan.Ok? {
          PendingCarriesRest(mac, env, w, how, plan.value);
          CommitKeepsShipped(mac, env, w, plan.value, how, f);
        }
    }
  }

  lemma {:induction false} RunsKeepShipped(mac: Mac, env: Env, w: World, actions: seq<Action>)
    requires Covered(mac, env.h, w) && AllShipped(env, w)
             && ActionsKeepKeys(mac, env, w, actions)
    ensures AllShipped(env, Runs(mac, env, w, actions))
    decreases |actions|
  {
    if actions != [] {
      ActKeepsShipped(mac, env, w, actions[0]);
      ActKeepsCovered(mac, env, w, actions[0]);
      RunsKeepShipped(mac, env, Act(mac, env, w, actions[0]), actions[1..]);
    }
  }

  /** The exported bytes before compression. */
  function Opened(unzip: Bytes -> Bytes, body: Bytes, compressed: bool): Bytes {
    if compressed then unzip(body) else body
  }

  /** The checkpoint points to the object, and its bytes check to the checkpoint's root. */
  ghost predicate ChecksTo(env: Env, dec: Bytes -> Option<ExportLine>, unzip: Bytes -> Bytes, w: World, cp: Checkpoint,
                           how: How)
  {
    var key := KeyOf(cp, how);
    && key in w.objects && cp.exportedTo == Some(env.uri(key))
    && VerifyExport(dec, env.h, Opened(unzip, w.objects[key], how.compress)) == Ok(cp.root)
  }

  /**
   * At the end of every run, whatever failed and whatever was exported later, the object of
   * every checkpoint still checks to the checkpoint's root.
   */
  lemma EveryExportStillChecks(mac: Mac, env: Env, dec: Bytes -> Option<ExportLine>, unzip: Bytes -> Bytes,
                               key: Bytes, keyId: string, actions: seq<Action>, i: nat)
    requires ActionsKeepKeys(mac, env, NewWorld(key, keyId), actions)
    requires forall b, z :: env.zip(b) == Some(z) ==> unzip(z) == b
    requires i < |Runs(mac, env, NewWorld(key, keyId), actions).checkpoints|
    requires var rows := Runs(mac, env, NewWorld(key, keyId), actions).log.rows;
             forall j :: 0 <= j < |rows| ==> Reads(env.enc, dec, LineOf(rows[j]))
    ensures var w := Runs(mac, env, NewWorld(key, keyId), actions);
            var cp := w.checkpoints[i];
            exists how: How :: ChecksTo(env, dec, unzip, w, cp, how)
  {
    RunsKeepCovered(mac, env, NewWorld(key, keyId), actions);
    RunsKeepShipped(mac, env, NewWorld(key, keyId), actions);
    var w := Runs(mac, env, NewWorld(key, keyId), actions);
    ShippedChecks(mac, env, dec, unzip, w, i);
  }

  lemma OpenedAsWritten(env: Env, unzip: Bytes -> Bytes, w: World, i: nat, how: How)
    requires i < |w.checkpoints| && ShippedAs(env, w, i, how)
    requires forall b, z :: env.zip(b) == Some(z) ==> unzip(z) == b
    ensures var cp := w.checkpoints[i];
            Opened(unzip, w.objects[KeyOf(cp, how)], how.compress) ==
            Jsonl(env.enc, w.log.rows[cp.rangeFrom - 1..cp.rangeTo])
  {
  }

  lemma ShippedChecks(mac: Mac, env: Env, dec: Bytes -> Option<ExportLine>, unzip: Bytes -> Bytes, w: World, i: nat)
    requires Covered(mac, env.h, w) && i < |w.checkpoints| && Shipped(env, w, i)
    requires forall b, z :: env.zip(b) == Some(z) ==> unzip(z) == b
    requires forall j :: 0 <= j < |w.log.rows| ==> Reads(env.enc, dec, LineOf(w.log.rows[j]))
    ensures var cp := w.checkpoints[i];
            exists how: How :: ChecksTo(env, dec, unzip, w, cp, how)
  {
    var how: How :| ShippedAs(env, w, i, how);
    var cp := w.checkpoints[i];
    assert Faithful(env.h, w.log.rows, w.checkpoints, i);
    SliceReadsBack(env, dec, w.log.rows, cp.rangeFrom - 1, cp.rangeTo);
    OpenedAsWritten(env, unzip, w, i, how);
    assert ChecksTo(env, dec, unzip, w, cp, how);
  }

  /**
   * A checkpoint root together with its row count fixes the log: two logs that
   * verify from id 1 and agree on both carry the same events, up to the actor's
   * role, under the same key ids, unless something they hash collides.
   */
  lemma RootAndCountFixTheLog(mac: Mac, h: Pairing, a: Log, b: Log)
    requires VerifiesWhole(mac, a) && VerifiesWhole(mac, b)
    requires KeysResolve(a) && KeysResolve(b) && NoCollisions(mac, Inputs(a) + Inputs(b))
    requires RowLeaves(a.rows).Ok? && RowLeaves(b.rows).Ok?
    requires Merkle.NoCollisions(h,
             Merkle.RootHashed(h, RowLeaves(a.rows).value) + Merkle.RootHashed(h, RowLeaves(b.rows).value))
    requires |a.rows| == |b.rows| && RootForRows(h, a.rows) == RootForRows(h, b.rows)
    ensures forall i :: 0 <= i < |a.rows| ==>
            a.rows[i].keyId == b.rows[i].keyId && SameButRole(a.rows[i].event, b.rows[i].event)
  {
    RowLeavesAreHashes(a.rows);
    RowLeavesAreHashes(b.rows);
    Merkle.RootBinds(h, Genesis(), RowLeaves(a.rows).value, RowLeaves(b.rows).value);
    if a.rows != [] {
      ChainBinds(mac, a, b);
      forall i | 0 <= i < |a.rows|
        ensures a.rows[i].keyId == b.rows[i].keyId && SameButRole(a.rows[i].event, b.rows[i].event)
      {
        assert SameRow(a, i, b, i);
        CanonicalBinds(a.rows[i].event, a.rows[i].keyId, b.rows[i].event, b.rows[i].keyId);
      }
    }
  }

  // ---- The stores ----

  class MemoryCheckpointStore {
    var rows: seq<Checkpoint>
    var nextId: int

    constructor ()
      ensures rows == [] && nextId == 0
    {
      rows := [];
      nextId := 0;
    }

    method Last() returns (cp: Option<Checkpoint>)
      ensures cp == if rows == [] then None else Some(rows[|rows| - 1])
    {
      cp := if |rows| == 0 then None else Some(rows[|rows| - 1]);
    }

    method InsertRow(from: int, to: int, root: Bytes, exportedTo: string, ok: bool)
      returns (r: Result<Checkpoint, ExportError>)
      modifies this
      ensures !ok ==> r == Err(InsertFailed) && rows == old(rows) && nextId == old(nextId)
      ensures ok ==> nextId == old(nextId) + 1 && r == Ok(Checkpoint(nextId, from, to, root, Some(exportedTo)))
                     && rows == old(rows) + [r.value]
    {
      if !ok {
        return Err(InsertFailed);
      }
      nextId := nextId + 1;
      var cp := Checkpoint(nextId, from, to, root, Some(exportedTo));
      rows := rows + [cp];
      return Ok(cp);
    }
  }

  class MemoryDestination {
    var objects: map<string, Bytes>

    method Put(env: Env, key: string, body: Bytes, ok: bool) returns (r: Result<string, ExportError>)
      modifies this
      ensures objects == if ok then old(objects)[key := body] else old(objects)
      ensures r == if ok then Ok(env.uri(key)) else Err(PutFailed)
    {
      if !ok {
        return Err(PutFailed);
      }
      objects := objects[key := body];
      return Ok(env.uri(key));
    }
  }

  method SortRows(rows: seq<Row>) returns (sorted: seq<Row>)
    ensures sorted == SortById(rows)
  {
    sorted := [];
    for i := 0 to |rows|
      invariant sorted == SortById(rows[..i])
    {
      assert rows[..i + 1][..i] == rows[..i];
      sorted := Insert(sorted, rows[i]);
    }
    assert rows[..|rows|] == rows;
  }

  lemma {:induction false} FindIsFirst(rows: seq<Row>, id: int, i: nat)
    requires i < |rows| && rows[i].id == id && forall j :: 0 <= j < i ==> rows[j].id != id
    ensures Find(rows, id) == Some(rows[i])
  {
    if i > 0 {
      FindIsFirst(rows[1..], id, i - 1);
    }
  }

  lemma {:induction false} FindNothing(rows: seq<Row>, id: int)
    requires forall j :: 0 <= j < |rows| ==> rows[j].id != id
    ensures Find(rows, id) == None
  {
    if rows != [] {
      FindNothing(rows[1..], id);
    }
  }

  method FetchRange(sink: InMemoryAudit, from: int, to: int) returns (rows: seq<Row>)
    requires from <= to
    ensures rows == Fetch(sink.rows, from, to)
    ensures Ascending(rows) && forall r :: r in rows ==> r in sink.rows && from <= r.id <= to
    ensures forall r :: r in sink.rows && from <= r.id <= to ==> exists f :: f in rows && f.id == r.id
  {
    rows := [];
    var id := from;
    while id <= to
      invariant from <= id <= to + 1
      invariant rows == Fetch(sink.rows, from, id - 1)
    {
      var r := sink.Get(id);
      if r.Ok? {
        ghost var i :| 0 <= i < |sink.rows| && sink.rows[i] == r.value && sink.rows[i].id == id
                 && forall j :: 0 <= j < i ==> sink.rows[j].id != id;
        FindIsFirst(sink.rows, id, i);
        rows := rows + [r.value];
      } else {
        FindNothing(sink.rows, id);
      }
      id := id + 1;
    }
    FetchExactly(sink.rows, from, to);
    forall r | r in rows
      ensures r in sink.rows
    {
      FindHasId(sink.rows, r.id);
    }
    forall r | r in sink.rows && from <= r.id <= to
      ensures exists f :: f in rows && f.id == r.id
    {
      FindsStored(sink.rows, r);
      FindHasId(sink.rows, r.id);
    }
  }

  lemma {:induction false} FindsStored(rows: seq<Row>, r: Row)
    requires r in rows
    ensures Find(rows, r.id).Some?
  {
    if rows[0].id != r.id {
      FindsStored(rows[1..], r);
    }
  }

  /** The whole of `export_range` but the write. */
  method PrepareRange(env: Env, sink: InMemoryAudit, from: int, to: int, how: How)
    returns (r: Result<Plan, ExportError>)
    ensures r == PlanExport(env, sink.rows, from, to, how)
  {
    if to < from {
      return Err(Empty);
    }
    var rows := FetchRange(sink, from, to);
    rows := SortRows(rows);
    if |rows| == 0 {
      return Err(Empty);
    }
    var root := ComputeRootForRows(env.h, rows);
    if root.Err? {
      return Err(root.error);
    }
    var jsonl := EncodeJsonl(env.enc, rows);
    var body := MaybeCompress(env, jsonl, how.compress);
    if body.None? {
      return Err(CompressFailed);
    }
    var actualFrom, actualTo := rows[0].id, rows[|rows| - 1].id;
    return Ok(Plan(actualFrom, actualTo, root.value, ExportKey(how.at, actualFrom, actualTo, how.compress), body.value,
                   |rows|, how.compress));
  }

  ghost function Worldly(sink: InMemoryAudit, store: MemoryCheckpointStore, dest: MemoryDestination): World
    reads sink, store, dest
  {
    World(sink.State(), store.rows, store.nextId, dest.objects)
  }

  method PreparePending(env: Env, sink: InMemoryAudit, store: MemoryCheckpointStore, how: How)
    returns (r: Result<Plan, ExportError>)
    ensures forall objects :: r == PlanPending(env, World(sink.State(), store.rows, store.nextId, objects), how)
  {
    var last := store.Last();
    var from := if last.Some? then last.value.rangeTo + 1 else 1;
    var page := sink.QueryRows(NEWEST_ONE);
    if |page| == 0 {
      return Err(Empty);
    }
    var newest := page[0].id;
    assert TipId(sink.rows) == Some(newest) && NextFrom(store.rows) == from;
    if newest < from {
      return Err(Empty);
    }
    r := PrepareRange(env, sink, from, newest, how);
  }

  method CommitPlan(env: Env, ghost sink: InMemoryAudit, store: MemoryCheckpointStore, dest: MemoryDestination,
                    plan: Result<Plan, ExportError>, f: Faults)
    returns (r: Result<ExportResult, ExportError>)
    modifies store, dest
    ensures Worldly(sink, store, dest) == Commit(env, old(Worldly(sink, store, dest)), plan, f)
    ensures r == Answer(env, plan, f)
  {
    if plan.Err? {
      return Err(plan.error);
    }
    var p := plan.value;
    var uri := dest.Put(env, p.key, p.body, f.putOk);
    if uri.Err? {
      return Err(uri.error);
    }
    var cp := store.InsertRow(p.rangeFrom, p.rangeTo, p.root, uri.value, f.insertOk);
    if cp.Err? {
      return Err(cp.error);
    }
    return Ok(ExportResult(p.rangeFrom, p.rangeTo, Hex.Encode(p.root), uri.value, p.rowCount, p.compressed));
  }

  method ExportPending(env: Env, sink: InMemoryAudit, store: MemoryCheckpointStore, dest: MemoryDestination,
                       how: How, f: Faults)
    returns (r: Result<ExportResult, ExportError>)
    modifies store, dest
    ensures Worldly(sink, store, dest) == AfterExport(env, old(Worldly(sink, store, dest)), how, f)
    ensures r == Answer(env, PlanPending(env, old(Worldly(sink, store, dest)), how), f)
  {
    var plan := PreparePending(env, sink, store, how);
    assert plan == PlanPending(env, Worldly(sink, store, dest), how);
    r := CommitPlan(env, sink, store, dest, plan, f);
  }
}
