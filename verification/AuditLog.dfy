/**
 * The in-memory chained audit sink (crates/specton-audit/src/memory.rs).
 *
 * `Log` is the sink's state as a value; the class `InMemoryAudit` updates it in
 * place and every method is tied to the function on `Log` it computes.
 */
module AuditLog {
  import opened Common
  import opened AuditEvents
  import Hex

  datatype Log = Log(rows: seq<Row>, nextId: int, key: Bytes, keyId: string, keys: map<string, Bytes>)

  datatype AuditError = HashFailed | UnknownKey(keyId: string) | NotFound(id: int)

  datatype Verdict = Verdict(ok: bool, checked: nat, brokenAt: Option<int>,
                             expectedHash: Option<string>, actualHash: Option<string>)

  function NewLog(key: Bytes, keyId: string): Log {
    Log([], 1, key, keyId, map[keyId := key])
  }

  /** The active key wins over the key table. */
  function ResolveKey(log: Log, keyId: string): Option<Bytes> {
    if keyId == log.keyId then Some(log.key)
    else if keyId in log.keys then Some(log.keys[keyId])
    else None
  }

  function Activate(log: Log, keyId: string, key: Bytes): Log {
    log.(key := key, keyId := keyId, keys := log.keys[keyId := key])
  }

  function TipHash(rows: seq<Row>): Bytes {
    if rows == [] then Genesis() else rows[|rows| - 1].rowHash
  }

  function TenantOf(e: Event): Option<string> {
    if e.subject.Some? then e.subject.value.tenant else None
  }

  function Append(mac: Mac, log: Log, e: Event): Log {
    var prev := TipHash(log.rows);
    var hash := RowHash(mac, log.key, prev, e, log.keyId);
    if hash.None? then log
    else log.(rows := log.rows + [Row(log.nextId, e, TenantOf(e), Some(prev), hash.value, log.keyId)],
        nextId := log.nextId + 1)
  }

  // ---- Verification ----

  function InRange(rows: seq<Row>, from: int, to: int): (slice: seq<Row>)
    ensures |slice| <= |rows|
  {
    if rows == [] then []
    else
      var last := rows[|rows| - 1];
      InRange(rows[..|rows| - 1], from, to) + if from <= last.id <= to then [last] else []
  }

  /** The latest stored row whose id is below `from`. */
  function LastBefore(rows: seq<Row>, from: int): Option<Row> {
    if rows == [] then None
    else if rows[|rows| - 1].id < from then Some(rows[|rows| - 1])
    else LastBefore(rows[..|rows| - 1], from)
  }

  /** The hash the first row of the range has to link to. */
  function Seed(rows: seq<Row>, from: int, to: int): Bytes {
    var before, slice := LastBefore(rows, from), InRange(rows, from, to);
    if before.Some? then before.value.rowHash
    else if from > 1 && slice != [] && slice[0].prevHash.Some? then slice[0].prevHash.value
    else Genesis()
  }

  datatype Check = Sound | NoKey | Unhashable | Broken(expected: Bytes, actual: Bytes)

  function Prior(slice: seq<Row>, seed: Bytes, i: nat): Bytes
    requires i < |slice|
  {
    if i == 0 then seed else slice[i - 1].rowHash
  }

  /** What is wrong with a row that should link to the hash `prior`. */
  function CheckLink(mac: Mac, log: Log, row: Row, prior: Bytes): Check {
    var key := ResolveKey(log, row.keyId);
    if key.None? then NoKey
    else if |prior| != 32 then Broken(prior, if row.prevHash.Some? then row.prevHash.value else [])
    else if row.prevHash.Some? && row.prevHash.value != prior then Broken(prior, row.prevHash.value)
    else
      var hash := RowHash(mac, key.value, prior, row.event, row.keyId);
      if hash.None? then Unhashable
      else if hash.value == row.rowHash then Sound
      else Broken(hash.value, row.rowHash)
  }

  /** What is wrong with row `i` of a range, given only the hash stored in the row before it. */
  function CheckRow(mac: Mac, log: Log, slice: seq<Row>, seed: Bytes, i: nat): Check
    requires i < |slice|
  {
    CheckLink(mac, log, slice[i], Prior(slice, seed, i))
  }

  /** How a scan that stops at row `i` reports it. */
  function Report(slice: seq<Row>, i: nat, c: Check): Result<Verdict, AuditError>
    requires i < |slice| && !c.Sound?
  {
    match c
    case NoKey => Err(UnknownKey(slice[i].keyId))
    case Unhashable => Err(HashFailed)
    case Broken(expected, actual) =>
      Ok(Verdict(false, i, Some(slice[i].id), Some(Hex.Encode(expected)), Some(Hex.Encode(actual))))
  }

  ghost predicate SoundUpTo(mac: Mac, log: Log, slice: seq<Row>, seed: Bytes, n: nat)
    requires n <= |slice|
  {
    forall i :: 0 <= i < n ==> CheckRow(mac, log, slice, seed, i) == Sound
  }

  /** Row `i` is the first one that is not sound. */
  ghost predicate FirstFault(mac: Mac, log: Log, slice: seq<Row>, seed: Bytes, i: nat)
    requires i < |slice|
  {
    SoundUpTo(mac, log, slice, seed, i) && CheckRow(mac, log, slice, seed, i) != Sound
  }

  /** `r` is the answer for a range: everything sound, or the first row that is not. */
  ghost predicate Answers(mac: Mac, log: Log, from: int, to: int, r: Result<Verdict, AuditError>) {
    AnswersFor(mac, log, InRange(log.rows, from, to), Seed(log.rows, from, to), r)
  }

  ghost predicate AnswersFor(mac: Mac, log: Log, slice: seq<Row>, seed: Bytes, r: Result<Verdict, AuditError>) {
    if SoundUpTo(mac, log, slice, seed, |slice|) then
      r == Ok(Verdict(true, |slice|, None, None, None))
    else
      exists i :: 0 <= i < |slice| && FirstFault(mac, log, slice, seed, i)
        && r == Report(slice, i, CheckRow(mac, log, slice, seed, i))
  }

  lemma StopsAt(mac: Mac, log: Log, slice: seq<Row>, seed: Bytes, i: nat)
    requires i < |slice| && FirstFault(mac, log, slice, seed, i)
    ensures AnswersFor(mac, log, slice, seed, Report(slice, i, CheckRow(mac, log, slice, seed, i)))
  {
  }

  /** There is only one answer. */
  lemma AnswerUnique(mac: Mac, log: Log, from: int, to: int, r: Result<Verdict, AuditError>,
                     s: Result<Verdict, AuditError>)
    requires Answers(mac, log, from, to, r) && Answers(mac, log, from, to, s)
    ensures r == s
  {
    var slice, seed := InRange(log.rows, from, to), Seed(log.rows, from, to);
    if !SoundUpTo(mac, log, slice, seed, |slice|) {
      var a :| 0 <= a < |slice| && FirstFault(mac, log, slice, seed, a)
        && r == Report(slice, a, CheckRow(mac, log, slice, seed, a));
      var b :| 0 <= b < |slice| && FirstFault(mac, log, slice, seed, b)
        && s == Report(slice, b, CheckRow(mac, log, slice, seed, b));
      assert a == b;
    }
  }

  ghost predicate Ascending(rows: seq<Row>) {
    forall i, j :: 0 <= i < j < |rows| ==> rows[i].id < rows[j].id
  }

  lemma {:induction false} InRangeAscending(rows: seq<Row>, from: int, to: int)
    requires Ascending(rows)
    ensures Ascending(InRange(rows, from, to))
    ensures rows != [] ==> forall r :: r in InRange(rows, from, to) ==> r.id <= rows[|rows| - 1].id
  {
    if |rows| == 1 {
      assert InRange(rows[..0], from, to) == [];
    } else if rows != [] {
      InRangeAscending(rows[..|rows| - 1], from, to);
    }
  }

  // ---- What a verdict means ----

  /** The key a key id stands for; the active key wins over the key table. */
  ghost predicate KeyIs(log: Log, keyId: string, key: Bytes) {
    if keyId == log.keyId then key == log.key else keyId in log.keys && key == log.keys[keyId]
  }

  ghost predicate KeyKnown(log: Log, keyId: string) {
    keyId == log.keyId || keyId in log.keys
  }

  /** Whatever the row says it links to is `prior`, and its hash is that of its event on top of `prior`. */
  ghost predicate RowHolds(mac: Mac, log: Log, row: Row, prior: Bytes) {
    && |prior| == 32
    && (row.prevHash.Some? ==> row.prevHash.value == prior)
    && exists key :: KeyIs(log, row.keyId, key) && mac(key, prior, Canonical(row.event, row.keyId)) == Some(row.rowHash)
  }

  /** Every row of the range holds on top of the one before it, the first on top of the seed. */
  ghost predicate AllHold(mac: Mac, log: Log, slice: seq<Row>, seed: Bytes, n: nat)
    requires n <= |slice|
  {
    forall i :: 0 <= i < n ==> RowHolds(mac, log, slice[i], if i == 0 then seed else slice[i - 1].rowHash)
  }

  function BrokenAt(n: nat, row: Row, expected: Bytes, actual: Bytes): Result<Verdict, AuditError> {
    Ok(Verdict(false, n, Some(row.id), Some(Hex.Encode(expected)), Some(Hex.Encode(actual))))
  }

  /** What is reported when row `n` is the first that does not hold: no key, a wrong link or a wrong hash. */
  ghost predicate Explains(mac: Mac, log: Log, n: nat, row: Row, prior: Bytes, r: Result<Verdict, AuditError>) {
    var stored := if row.prevHash.Some? then row.prevHash.value else [];
    if !KeyKnown(log, row.keyId) then r == Err(UnknownKey(row.keyId))
    else if |prior| != 32 || (row.prevHash.Some? && stored != prior) then r == BrokenAt(n, row, prior, stored)
    else forall key :: KeyIs(log, row.keyId, key) ==>
      var hash := mac(key, prior, Canonical(row.event, row.keyId));
      r == if hash.None? then Err(HashFailed) else BrokenAt(n, row, hash.value, row.rowHash)
  }

  lemma SoundMeansHolds(mac: Mac, log: Log, row: Row, prior: Bytes)
    ensures CheckLink(mac, log, row, prior) == Sound <==> RowHolds(mac, log, row, prior)
  {
    var key := ResolveKey(log, row.keyId);
    if key.Some? {
      assert KeyIs(log, row.keyId, key.value);
    }
  }

  lemma ReportExplains(mac: Mac, log: Log, slice: seq<Row>, n: nat, prior: Bytes)
    requires n < |slice| && CheckLink(mac, log, slice[n], prior) != Sound
    ensures Explains(mac, log, n, slice[n], prior, Report(slice, n, CheckLink(mac, log, slice[n], prior)))
  {
  }

  lemma SoundUpToMeansHold(mac: Mac, log: Log, slice: seq<Row>, seed: Bytes, n: nat)
    requires n <= |slice|
    ensures SoundUpTo(mac, log, slice, seed, n) <==> AllHold(mac, log, slice, seed, n)
  {
    forall i | 0 <= i < n
      ensures CheckRow(mac, log, slice, seed, i) == Sound <==>
              RowHolds(mac, log, slice[i], if i == 0 then seed else slice[i - 1].rowHash)
    {
      SoundMeansHolds(mac, log, slice[i], Prior(slice, seed, i));
    }
  }

  /**
   * A range is reported ok if and only if every row of it holds on top of the one before it;
   * otherwise the report explains the first row that does not.
   */
  lemma VerdictExactly(mac: Mac, log: Log, slice: seq<Row>, seed: Bytes, r: Result<Verdict, AuditError>)
    requires AnswersFor(mac, log, slice, seed, r)
    ensures (r.Ok? && r.value.ok) <==> AllHold(mac, log, slice, seed, |slice|)
    ensures r.Ok? && r.value.ok ==> r == Ok(Verdict(true, |slice|, None, None, None))
    ensures forall n :: 0 <= n < |slice| && AllHold(mac, log, slice, seed, n)
                        && !AllHold(mac, log, slice, seed, n + 1) ==>
              Explains(mac, log, n, slice[n], if n == 0 then seed else slice[n - 1].rowHash, r)
  {
    SoundUpToMeansHold(mac, log, slice, seed, |slice|);
    if AllHold(mac, log, slice, seed, |slice|) {
      AllHoldDown(mac, log, slice, seed);
    } else {
      var i :| 0 <= i < |slice| && FirstFault(mac, log, slice, seed, i)
        && r == Report(slice, i, CheckRow(mac, log, slice, seed, i));
      forall n | 0 <= n < |slice| && AllHold(mac, log, slice, seed, n) && !AllHold(mac, log, slice, seed, n + 1)
        ensures Explains(mac, log, n, slice[n], if n == 0 then seed else slice[n - 1].rowHash, r)
      {
        FirstFaultIsFirst(mac, log, slice, seed, i, n);
        ReportExplains(mac, log, slice, i, Prior(slice, seed, i));
      }
    }
  }

  lemma AllHoldDown(mac: Mac, log: Log, slice: seq<Row>, seed: Bytes)
    requires AllHold(mac, log, slice, seed, |slice|)
    ensures forall n :: 0 <= n <= |slice| ==> AllHold(mac, log, slice, seed, n)
  {
  }

  lemma FirstFaultIsFirst(mac: Mac, log: Log, slice: seq<Row>, seed: Bytes, i: nat, n: nat)
    requires i < |slice| && n < |slice| && FirstFault(mac, log, slice, seed, i)
    requires AllHold(mac, log, slice, seed, n) && !AllHold(mac, log, slice, seed, n + 1)
    ensures i == n
  {
    SoundUpToMeansHold(mac, log, slice, seed, n);
    SoundUpToMeansHold(mac, log, slice, seed, n + 1);
  }

  /** On a log stored in id order, a failing verdict names the least broken id of the range. */
  lemma FailureNamesLeastBrokenId(mac: Mac, log: Log, from: int, to: int, v: Verdict)
    requires Ascending(log.rows)
    requires Answers(mac, log, from, to, Ok(v)) && !v.ok
    ensures var slice, seed := InRange(log.rows, from, to), Seed(log.rows, from, to);
            v.checked < |slice| && v.brokenAt == Some(slice[v.checked].id)
            && CheckRow(mac, log, slice, seed, v.checked).Broken?
            && forall i :: 0 <= i < |slice| && CheckRow(mac, log, slice, seed, i).Broken? ==>
                slice[v.checked].id <= slice[i].id
    ensures LeastNotHolding(mac, log, InRange(log.rows, from, to), Seed(log.rows, from, to), v.checked)
  {
    InRangeAscending(log.rows, from, to);
    var slice, seed := InRange(log.rows, from, to), Seed(log.rows, from, to);
    FailureIsFirst(mac, log, slice, seed, v);
    FirstIsLeast(mac, log, slice, seed, v.checked);
    FirstNotHolding(mac, log, slice, seed, v.checked);
  }

  /** Row `n` is the first that does not hold, and of all that do not it has the least id. */
  ghost predicate LeastNotHolding(mac: Mac, log: Log, slice: seq<Row>, seed: Bytes, n: nat) {
    && n < |slice| && AllHold(mac, log, slice, seed, n) && !AllHold(mac, log, slice, seed, n + 1)
    && forall i :: 0 <= i < |slice| && !RowHolds(mac, log, slice[i], if i == 0 then seed else slice[i - 1].rowHash) ==>
         slice[n].id <= slice[i].id
  }

  lemma FirstNotHolding(mac: Mac, log: Log, slice: seq<Row>, seed: Bytes, n: nat)
    requires Ascending(slice) && n < |slice| && FirstFault(mac, log, slice, seed, n)
    ensures LeastNotHolding(mac, log, slice, seed, n)
  {
    SoundUpToMeansHold(mac, log, slice, seed, n);
    SoundUpToMeansHold(mac, log, slice, seed, n + 1);
  }

  lemma FirstIsLeast(mac: Mac, log: Log, slice: seq<Row>, seed: Bytes, n: nat)
    requires Ascending(slice) && n < |slice| && SoundUpTo(mac, log, slice, seed, n)
    ensures forall i :: 0 <= i < |slice| && CheckRow(mac, log, slice, seed, i).Broken? ==> slice[n].id <= slice[i].id
  {
  }

  lemma FailureIsFirst(mac: Mac, log: Log, slice: seq<Row>, seed: Bytes, v: Verdict)
    requires AnswersFor(mac, log, slice, seed, Ok(v)) && !v.ok
    ensures v.checked < |slice| && v.brokenAt == Some(slice[v.checked].id)
    ensures CheckRow(mac, log, slice, seed, v.checked).Broken? && SoundUpTo(mac, log, slice, seed, v.checked)
  {
  }

  lemma CountMore<T>(s: seq<T>, x: T, y: T)
    ensures multiset(s + [x])[y] == multiset(s)[y] + if x == y then 1 else 0
  {
  }

  /** A range holds every stored row with an id in it as often as it is stored, and no other row. */
  lemma {:induction false} InRangeExactly(rows: seq<Row>, from: int, to: int, r: Row)
    ensures multiset(InRange(rows, from, to))[r] == if from <= r.id <= to then multiset(rows)[r] else 0
  {
    if rows != [] {
      var front, last := rows[..|rows| - 1], rows[|rows| - 1];
      var some := InRange(front, from, to);
      InRangeExactly(front, from, to, r);
      CountMore(front, last, r);
      assert front + [last] == rows;
      if from <= last.id <= to {
        CountMore(some, last, r);
        assert InRange(rows, from, to) == some + [last];
      } else {
        assert InRange(rows, from, to) == some;
      }
    }
  }

  /** And in the order of storage: taking a range distributes over concatenation. */
  lemma {:induction false} InRangeConcat(a: seq<Row>, b: seq<Row>, from: int, to: int)
    ensures InRange(a + b, from, to) == InRange(a, from, to) + InRange(b, from, to)
    decreases |b|
  {
    if b == [] {
      assert a + b == a;
    } else {
      var n := |b| - 1;
      InRangeConcat(a, b[..n], from, to);
      assert (a + b)[..|a + b| - 1] == a + b[..n];
      var last := if from <= b[n].id <= to then [b[n]] else [];
      assert InRange(a, from, to) + InRange(b[..n], from, to) + last ==
             InRange(a, from, to) + (InRange(b[..n], from, to) + last);
    }
  }

  lemma {:induction false} LastBeforeExactly(rows: seq<Row>, from: int)
    ensures LastBefore(rows, from).None? <==> forall i :: 0 <= i < |rows| ==> rows[i].id >= from
    ensures forall i :: 0 <= i < |rows| && rows[i].id < from && (forall j :: i < j < |rows| ==> rows[j].id >= from) ==>
              LastBefore(rows, from) == Some(rows[i])
  {
    if rows != [] && rows[|rows| - 1].id >= from {
      var front := rows[..|rows| - 1];
      LastBeforeExactly(front, from);
      assert forall i :: 0 <= i < |front| ==> front[i] == rows[i];
    }
  }

  /**
   * A range starts on top of the last stored row below it; without one, on top of what its
   * first row says it links to, unless it starts at the beginning.
   */
  lemma SeedExactly(rows: seq<Row>, from: int, to: int)
    ensures forall i :: 0 <= i < |rows| && rows[i].id < from && (forall j :: i < j < |rows| ==> rows[j].id >= from) ==>
              Seed(rows, from, to) == rows[i].rowHash
    ensures (forall i :: 0 <= i < |rows| ==> rows[i].id >= from) ==>
              var slice := InRange(rows, from, to);
              if from > 1 && slice != [] && slice[0].prevHash.Some? then Seed(rows, from, to) == slice[0].prevHash.value
              else Seed(rows, from, to) == Genesis()
  {
    LastBeforeExactly(rows, from);
  }

  // ---- Every run of appends and key rotations ----

  datatype Op = OpAppend(event: Event) | OpActivate(keyId: string, key: Bytes)

  function Step(mac: Mac, log: Log, op: Op): Log {
    match op
    case OpAppend(e) => Append(mac, log, e)
    case OpActivate(id, key) => Activate(log, id, key)
  }

  function Run(mac: Mac, log: Log, ops: seq<Op>): Log
    decreases |ops|
  {
    if ops == [] then log else Run(mac, Step(mac, log, ops[0]), ops[1..])
  }

  /** A rotation never gives an id already in the key table a different key. */
  ghost predicate KeepsKeys(log: Log, op: Op) {
    op.OpActivate? && op.keyId in log.keys ==> log.keys[op.keyId] == op.key
  }

  ghost predicate RunKeepsKeys(mac: Mac, log: Log, ops: seq<Op>)
    decreases |ops|
  {
    ops == [] || (KeepsKeys(log, ops[0]) && RunKeepsKeys(mac, Step(mac, log, ops[0]), ops[1..]))
  }

  /** Ids without gaps, every row linked to the one before it and hashed under its own key. */
  ghost predicate Linked(mac: Mac, log: Log) {
    && log.nextId == |log.rows| + 1
    && log.keyId in log.keys && log.keys[log.keyId] == log.key
    && forall i :: 0 <= i < |log.rows| ==> LinkedRow(mac, log, i)
  }

  ghost predicate LinkedRow(mac: Mac, log: Log, i: nat)
    requires i < |log.rows|
  {
    var row, prior := log.rows[i], TipHash(log.rows[..i]);
    && row.id == i + 1
    && row.prevHash == Some(prior) && |prior| == 32 && |row.rowHash| == 32
    && row.keyId in log.keys
    && RowHash(mac, log.keys[row.keyId], prior, row.event, row.keyId) == Some(row.rowHash)
  }

  lemma StepKeepsLinked(mac: Mac, log: Log, op: Op)
    requires Linked(mac, log) && KeepsKeys(log, op)
    ensures Linked(mac, Step(mac, log, op))
  {
    match op {
      case OpAppend(e) => AppendKeepsLinked(mac, log, e);
      case OpActivate(id, key) => ActivateKeepsLinked(mac, log, id, key);
    }
  }

  lemma AppendKeepsLinked(mac: Mac, log: Log, e: Event)
    requires Linked(mac, log)
    ensures Linked(mac, Append(mac, log, e))
  {
    var next := Append(mac, log, e);
    assert log.rows != [] ==> LinkedRow(mac, log, |log.rows| - 1);
    forall i | 0 <= i < |next.rows|
      ensures LinkedRow(mac, next, i)
    {
      if i < |log.rows| {
        assert LinkedRow(mac, log, i);
        assert next.rows[..i] == log.rows[..i];
      } else {
        assert next.rows[..i] == log.rows;
      }
    }
  }

  lemma ActivateKeepsLinked(mac: Mac, log: Log, id: string, key: Bytes)
    requires Linked(mac, log) && (id in log.keys ==> log.keys[id] == key)
    ensures Linked(mac, Activate(log, id, key))
  {
    var next := Activate(log, id, key);
    forall i | 0 <= i < |next.rows|
      ensures LinkedRow(mac, next, i)
    {
      assert LinkedRow(mac, log, i);
    }
  }

  // ---- Which events a run stores ----

  /** What a row says beside its links: the event, the tenant it is filed under and its key id. */
  datatype Entry = Entry(event: Event, tenant: Option<string>, keyId: string)

  ghost function Entries(rows: seq<Row>): (es: seq<Entry>)
    ensures |es| == |rows|
    ensures forall i :: 0 <= i < |rows| ==> es[i] == Entry(rows[i].event, rows[i].tenant, rows[i].keyId)
  {
    seq(|rows|, i requires 0 <= i < |rows| => Entry(rows[i].event, rows[i].tenant, rows[i].keyId))
  }

  /** The appended events in order, each under the key id active at the time. */
  ghost function Logged(ops: seq<Op>, keyId: string): seq<Entry>
    decreases |ops|
  {
    if ops == [] then []
    else
      match ops[0]
      case OpAppend(e) =>
        [Entry(e, if e.subject.Some? then e.subject.value.tenant else None, keyId)] + Logged(ops[1..], keyId)
      case OpActivate(id, _) => Logged(ops[1..], id)
  }

  /** Every event of the run can be hashed where it is appended. */
  ghost predicate RunHashes(mac: Mac, log: Log, ops: seq<Op>)
    decreases |ops|
  {
    ops == []
    || ((ops[0].OpAppend? ==> mac(log.key, TipHash(log.rows), Canonical(ops[0].event, log.keyId)).Some?)
        && RunHashes(mac, Step(mac, log, ops[0]), ops[1..]))
  }

  lemma AppendStores(mac: Mac, log: Log, e: Event)
    ensures var next := Append(mac, log, e);
            var tenant := if e.subject.Some? then e.subject.value.tenant else None;
            && next.key == log.key && next.keyId == log.keyId && next.keys == log.keys
            && Entries(next.rows) == Entries(log.rows) +
               (if mac(log.key, TipHash(log.rows), Canonical(e, log.keyId)).Some? then [Entry(e, tenant, log.keyId)]
                else [])
  {
  }

  lemma Rejoin<T>(a: seq<T>, b: seq<T>, c: seq<T>)
    ensures a + b + c == a + (b + c)
  {
  }

  /** A run stores at most what was appended to it. */
  lemma {:induction false} RunStoresAtMost(mac: Mac, log: Log, ops: seq<Op>)
    ensures |Run(mac, log, ops).rows| <= |log.rows| + |Logged(ops, log.keyId)|
    decreases |ops|
  {
    if ops != [] {
      RunStoresAtMost(mac, Step(mac, log, ops[0]), ops[1..]);
      if ops[0].OpAppend? {
        AppendStores(mac, log, ops[0].event);
      }
    }
  }

  lemma {:induction false} HashedRunStores(mac: Mac, log: Log, ops: seq<Op>)
    requires RunHashes(mac, log, ops)
    ensures Entries(Run(mac, log, ops).rows) == Entries(log.rows) + Logged(ops, log.keyId)
    decreases |ops|
  {
    if ops != [] {
      var next := Step(mac, log, ops[0]);
      HashedRunStores(mac, next, ops[1..]);
      if ops[0].OpAppend? {
        AppendStores(mac, log, ops[0].event);
        var one := Entries(next.rows)[|log.rows|];
        Rejoin(Entries(log.rows), [one], Logged(ops[1..], log.keyId));
      }
    }
  }

  lemma {:induction false} UnhashedRunStoresLess(mac: Mac, log: Log, ops: seq<Op>)
    requires !RunHashes(mac, log, ops)
    ensures |Run(mac, log, ops).rows| < |log.rows| + |Logged(ops, log.keyId)|
    decreases |ops|
  {
    var next := Step(mac, log, ops[0]);
    if ops[0].OpAppend? {
      AppendStores(mac, log, ops[0].event);
    }
    if RunHashes(mac, next, ops[1..]) {
      RunStoresAtMost(mac, next, ops[1..]);
    } else {
      UnhashedRunStoresLess(mac, next, ops[1..]);
    }
  }

  /**
   * The rows of a run carry exactly the appended events, in order, each with its tenant and
   * the key id active at the time, if and only if every event could be hashed.
   */
  lemma RunStoresEvents(mac: Mac, key: Bytes, keyId: string, ops: seq<Op>)
    ensures Entries(Run(mac, NewLog(key, keyId), ops).rows) == Logged(ops, keyId) <==>
            RunHashes(mac, NewLog(key, keyId), ops)
  {
    var log := NewLog(key, keyId);
    if RunHashes(mac, log, ops) {
      HashedRunStores(mac, log, ops);
    } else {
      UnhashedRunStoresLess(mac, log, ops);
    }
  }

  lemma {:induction false} RunKeepsLinked(mac: Mac, log: Log, ops: seq<Op>)
    requires Linked(mac, log) && RunKeepsKeys(mac, log, ops)
    ensures Linked(mac, Run(mac, log, ops))
    decreases |ops|
  {
    if ops != [] {
      StepKeepsLinked(mac, log, ops[0]);
      RunKeepsLinked(mac, Step(mac, log, ops[0]), ops[1..]);
    }
  }

  function Clamp(x: int, n: nat): (c: nat)
    ensures c <= n
  {
    if x < 0 then 0 else if x > n then n else x
  }

  /** How many of the ids 1..n lie between `from` and `to`. */
  function CountInRange(n: nat, from: int, to: int): nat {
    var lo, hi := Clamp(from - 1, n), Clamp(to, n);
    if lo < hi then hi - lo else 0
  }

  ghost predicate Gapless(rows: seq<Row>) {
    forall i :: 0 <= i < |rows| ==> rows[i].id == i + 1
  }

  lemma LinkedIsGapless(mac: Mac, log: Log)
    requires Linked(mac, log)
    ensures Gapless(log.rows)
  {
    forall i | 0 <= i < |log.rows|
      ensures log.rows[i].id == i + 1
    {
      assert LinkedRow(mac, log, i);
    }
  }

  function SliceOf(rows: seq<Row>, from: int, to: int): seq<Row> {
    var lo, hi := Clamp(from - 1, |rows|), Clamp(to, |rows|);
    if lo < hi then rows[lo..hi] else []
  }

  lemma SliceOfLast(rows: seq<Row>, from: int, to: int)
    requires rows != [] && rows[|rows| - 1].id == |rows|
    ensures SliceOf(rows, from, to) ==
            SliceOf(rows[..|rows| - 1], from, to) + if from <= |rows| <= to then [rows[|rows| - 1]] else []
  {
    var n := |rows| - 1;
    var lo, hi := Clamp(from - 1, |rows|), Clamp(to, |rows|);
    if from <= |rows| <= to {
      assert rows[lo..hi] == rows[..n][lo..n] + [rows[n]];
      assert rows[..n][n..n] == [];
    } else if lo < hi {
      assert rows[lo..hi] == rows[..n][lo..hi];
    }
  }

  /** On gapless ids a range is a slice of the log. */
  lemma {:induction false} RangeIsSlice(rows: seq<Row>, from: int, to: int)
    requires Gapless(rows)
    ensures InRange(rows, from, to) == SliceOf(rows, from, to)
  {
    if rows != [] {
      var front, last := rows[..|rows| - 1], rows[|rows| - 1];
      RangeIsSlice(front, from, to);
      SliceOfLast(rows, from, to);
    }
  }

  lemma {:induction false} RowBeforeRange(rows: seq<Row>, from: int)
    requires Gapless(rows)
    ensures var lo := Clamp(from - 1, |rows|);
            LastBefore(rows, from) == if lo == 0 then None else Some(rows[lo - 1])
  {
    if rows != [] && rows[|rows| - 1].id >= from {
      RowBeforeRange(rows[..|rows| - 1], from);
    }
  }

  lemma LinkIsSound(mac: Mac, log: Log, k: nat)
    requires Linked(mac, log) && k < |log.rows|
    ensures CheckLink(mac, log, log.rows[k], TipHash(log.rows[..k])) == Sound
  {
    assert LinkedRow(mac, log, k);
  }

  /** The hash a row of the range is checked against is that of the row before it in the log. */
  lemma PriorInSlice(rows: seq<Row>, lo: nat, hi: nat, seed: Bytes, i: nat)
    requires lo <= hi <= |rows| && i < hi - lo && (lo > 0 ==> seed == rows[lo - 1].rowHash)
    requires lo == 0 ==> seed == Genesis()
    ensures Prior(rows[lo..hi], seed, i) == TipHash(rows[..lo + i])
  {
  }

  lemma PriorIsTip(rows: seq<Row>, from: int, to: int, i: nat)
    requires i < |SliceOf(rows, from, to)| && InRange(rows, from, to) == SliceOf(rows, from, to)
    requires var lo := Clamp(from - 1, |rows|);
             LastBefore(rows, from) == if lo == 0 then None else Some(rows[lo - 1])
    ensures Prior(SliceOf(rows, from, to), Seed(rows, from, to), i) == TipHash(rows[..Clamp(from - 1, |rows|) + i])
  {
    var lo, hi := Clamp(from - 1, |rows|), Clamp(to, |rows|);
    PriorInSlice(rows, lo, hi, Seed(rows, from, to), i);
  }

  lemma LinkedRowSound(mac: Mac, log: Log, from: int, to: int, i: nat)
    requires Linked(mac, log) && i < |SliceOf(log.rows, from, to)|
    requires InRange(log.rows, from, to) == SliceOf(log.rows, from, to)
    requires var lo := Clamp(from - 1, |log.rows|);
             LastBefore(log.rows, from) == if lo == 0 then None else Some(log.rows[lo - 1])
    ensures CheckRow(mac, log, SliceOf(log.rows, from, to), Seed(log.rows, from, to), i) == Sound
  {
    var k := Clamp(from - 1, |log.rows|) + i;
    assert SliceOf(log.rows, from, to)[i] == log.rows[k];
    LinkIsSound(mac, log, k);
    PriorIsTip(log.rows, from, to, i);
  }

  /** A linked log answers every range with ok. */
  lemma LinkedVerifies(mac: Mac, log: Log, from: int, to: int, r: Result<Verdict, AuditError>)
    requires Linked(mac, log) && Answers(mac, log, from, to, r)
    ensures r == Ok(Verdict(true, CountInRange(|log.rows|, from, to), None, None, None))
  {
    LinkedIsGapless(mac, log);
    RangeIsSlice(log.rows, from, to);
    LinkedRangeSound(mac, log, from, to);
  }

  lemma LinkedRangeSound(mac: Mac, log: Log, from: int, to: int)
    requires Linked(mac, log)
    ensures SoundUpTo(mac, log, InRange(log.rows, from, to), Seed(log.rows, from, to), |InRange(log.rows, from, to)|)
  {
    LinkedIsGapless(mac, log);
    RangeIsSlice(log.rows, from, to);
    RowBeforeRange(log.rows, from);
    forall i | 0 <= i < |InRange(log.rows, from, to)|
      ensures CheckRow(mac, log, InRange(log.rows, from, to), Seed(log.rows, from, to), i) == Sound
    {
      LinkedRowSound(mac, log, from, to, i);
    }
  }

  /**
   * After any run of appends and key rotations from an empty sink, ids are 1..n
   * and every range verifies, with `checked` the number of ids in the range.
   */
  lemma EveryRunVerifies(mac: Mac, key: Bytes, keyId: string, ops: seq<Op>, from: int, to: int,
                         r: Result<Verdict, AuditError>)
    requires RunKeepsKeys(mac, NewLog(key, keyId), ops)
    requires Answers(mac, Run(mac, NewLog(key, keyId), ops), from, to, r)
    ensures var rows := Run(mac, NewLog(key, keyId), ops).rows;
            Gapless(rows)
            && r == Ok(Verdict(true, CountInRange(|rows|, from, to), None, None, None))
  {
    var log := Run(mac, NewLog(key, keyId), ops);
    RunKeepsLinked(mac, NewLog(key, keyId), ops);
    LinkedIsGapless(mac, log);
    LinkedVerifies(mac, log, from, to, r);
  }

  /** The key gives row `i` the hash that is stored for it. */
  ghost predicate GivesSameHash(mac: Mac, log: Log, i: nat, key: Bytes)
    requires i < |log.rows|
  {
    RowHash(mac, key, TipHash(log.rows[..i]), log.rows[i].event, log.rows[i].keyId) == Some(log.rows[i].rowHash)
  }

  /** The range of all ids is the whole log, read from the genesis hash. */
  lemma WholeRange(rows: seq<Row>)
    requires Gapless(rows)
    ensures InRange(rows, 1, |rows|) == rows && Seed(rows, 1, |rows|) == Genesis()
  {
    RangeIsSlice(rows, 1, |rows|);
    RowBeforeRange(rows, 1);
  }

  lemma RowUnderNewKey(mac: Mac, log: Log, keyId: string, key: Bytes, i: nat)
    requires i < |log.rows| && LinkedRow(mac, log, i)
    ensures CheckRow(mac, Activate(log, keyId, key), log.rows, Genesis(), i) == Sound <==>
            log.rows[i].keyId != keyId || GivesSameHash(mac, log, i, key)
  {
    assert Prior(log.rows, Genesis(), i) == TipHash(log.rows[..i]);
  }

  /**
   * What activating a key does to a linked log, whether or not its id is new: the whole
   * chain still verifies if and only if the key gives every stored row of that id the
   * same hash.
   */
  lemma ActivationKeepsChainExactly(mac: Mac, log: Log, keyId: string, key: Bytes, r: Result<Verdict, AuditError>)
    requires Linked(mac, log) && Answers(mac, Activate(log, keyId, key), 1, |log.rows|, r)
    ensures (r.Ok? && r.value.ok) <==>
            forall i :: 0 <= i < |log.rows| && log.rows[i].keyId == keyId ==> GivesSameHash(mac, log, i, key)
  {
    var next, rows := Activate(log, keyId, key), log.rows;
    LinkedIsGapless(mac, log);
    WholeRange(rows);
    forall i | 0 <= i < |rows|
      ensures CheckRow(mac, next, rows, Genesis(), i) == Sound <==>
              rows[i].keyId != keyId || GivesSameHash(mac, log, i, key)
    {
      assert LinkedRow(mac, log, i);
      RowUnderNewKey(mac, log, keyId, key, i);
    }
    AnswerOk(mac, next, rows, Genesis(), r);
  }

  /**
   * The condition on rotations is exact: on a linked log, giving a known id a key
   * keeps the whole chain verifying if and only if the key is the old one or no
   * stored row was hashed under that id, provided the hash tells the two keys apart.
   */
  lemma ReplacingAKeyBreaksItsRows(mac: Mac, log: Log, keyId: string, key: Bytes, r: Result<Verdict, AuditError>)
    requires Linked(mac, log) && keyId in log.keys
    requires forall i :: 0 <= i < |log.rows| && log.rows[i].keyId == keyId && key != log.keys[keyId] ==>
               !GivesSameHash(mac, log, i, key)
    requires Answers(mac, Activate(log, keyId, key), 1, |log.rows|, r)
    ensures (r.Ok? && r.value.ok) <==>
            (key == log.keys[keyId] || forall i :: 0 <= i < |log.rows| ==> log.rows[i].keyId != keyId)
  {
    ActivationKeepsChainExactly(mac, log, keyId, key, r);
    if key == log.keys[keyId] {
      forall i | 0 <= i < |log.rows| && log.rows[i].keyId == keyId
        ensures GivesSameHash(mac, log, i, key)
      {
        assert LinkedRow(mac, log, i);
      }
    }
  }

  /** The verdict is good exactly when every row is sound. */
  lemma AnswerOk(mac: Mac, log: Log, slice: seq<Row>, seed: Bytes, r: Result<Verdict, AuditError>)
    requires AnswersFor(mac, log, slice, seed, r)
    ensures (r.Ok? && r.value.ok) <==> SoundUpTo(mac, log, slice, seed, |slice|)
  {
  }

  // ---- The chain binds what was hashed ----

  ghost predicate WholeSound(mac: Mac, log: Log) {
    SoundUpTo(mac, log, log.rows, Genesis(), |log.rows|)
  }

  ghost predicate KeysResolve(log: Log) {
    forall i :: 0 <= i < |log.rows| ==> ResolveKey(log, log.rows[i].keyId).Some?
  }

  /** The inputs hashed along a chain that starts at the genesis value. */
  ghost function Inputs(log: Log): set<(Bytes, Bytes, Payload)>
    requires KeysResolve(log)
  {
    set i | 0 <= i < |log.rows| :: InputAt(log, i)
  }

  ghost predicate NoCollisions(mac: Mac, inputs: set<(Bytes, Bytes, Payload)>) {
    forall p, q :: p in inputs && q in inputs && mac(p.0, p.1, p.2) == mac(q.0, q.1, q.2) ==> p == q
  }

  /** The whole stored log verifies from id 1. */
  ghost predicate VerifiesWhole(mac: Mac, log: Log) {
    exists to, v: Verdict :: Answers(mac, log, 1, to, Ok(v)) && v.ok && v.checked == |log.rows|
  }

  lemma {:induction false} FullRange(rows: seq<Row>, from: int, to: int)
    requires |InRange(rows, from, to)| == |rows|
    ensures InRange(rows, from, to) == rows && LastBefore(rows, from) == None
  {
    if rows != [] {
      FullRange(rows[..|rows| - 1], from, to);
    }
  }

  lemma WholeRowsSound(mac: Mac, log: Log)
    requires VerifiesWhole(mac, log)
    ensures WholeSound(mac, log) && KeysResolve(log)
  {
    var to, v: Verdict :| Answers(mac, log, 1, to, Ok(v)) && v.ok && v.checked == |log.rows|;
    FullRange(log.rows, 1, to);
    forall i | 0 <= i < |log.rows|
      ensures ResolveKey(log, log.rows[i].keyId).Some?
    {
      assert CheckRow(mac, log, log.rows, Genesis(), i) == Sound;
    }
  }

  ghost function InputAt(log: Log, i: nat): (Bytes, Bytes, Payload)
    requires i < |log.rows| && ResolveKey(log, log.rows[i].keyId).Some?
  {
    (ResolveKey(log, log.rows[i].keyId).value, Prior(log.rows, Genesis(), i),
        Canonical(log.rows[i].event, log.rows[i].keyId))
  }

  lemma EqualHashEqualInput(mac: Mac, a: Log, i: nat, b: Log, j: nat)
    requires WholeSound(mac, a) && WholeSound(mac, b)
    requires KeysResolve(a) && KeysResolve(b)
    requires NoCollisions(mac, Inputs(a) + Inputs(b))
    requires i < |a.rows| && j < |b.rows| && a.rows[i].rowHash == b.rows[j].rowHash
    ensures InputAt(a, i) == InputAt(b, j)
  {
    assert CheckRow(mac, a, a.rows, Genesis(), i) == Sound && CheckRow(mac, b, b.rows, Genesis(), j) == Sound;
    assert InputAt(a, i) in Inputs(a) && InputAt(b, j) in Inputs(b);
  }

  /** Equal row hashes come from equal inputs. */
  ghost predicate HashesBind(a: Log, b: Log)
    requires KeysResolve(a) && KeysResolve(b)
  {
    forall i, j :: 0 <= i < |a.rows| && 0 <= j < |b.rows| && a.rows[i].rowHash == b.rows[j].rowHash ==>
        InputAt(a, i) == InputAt(b, j)
  }

  lemma VerifiedHashesBind(mac: Mac, a: Log, b: Log)
    requires VerifiesWhole(mac, a) && VerifiesWhole(mac, b) && KeysResolve(a) && KeysResolve(b)
    requires NoCollisions(mac, Inputs(a) + Inputs(b))
    ensures HashesBind(a, b)
  {
    WholeRowsSound(mac, a);
    WholeRowsSound(mac, b);
    forall i, j | 0 <= i < |a.rows| && 0 <= j < |b.rows| && a.rows[i].rowHash == b.rows[j].rowHash
      ensures InputAt(a, i) == InputAt(b, j)
    {
      EqualHashEqualInput(mac, a, i, b, j);
    }
  }

  lemma TopRowsBind(a: Log, b: Log, m: nat, n: nat)
    requires KeysResolve(a) && KeysResolve(b) && HashesBind(a, b)
    requires 1 <= m <= |a.rows| && 1 <= n <= |b.rows|
    requires a.rows[m - 1].rowHash == b.rows[n - 1].rowHash
    ensures SameRow(a, m - 1, b, n - 1)
    ensures Prior(a.rows, Genesis(), m - 1) == Prior(b.rows, Genesis(), n - 1)
  {
    assert InputAt(a, m - 1) == InputAt(b, n - 1);
  }

  /** Rows `m - 1` and `n - 1` with the same hash agree with each other all the way down. */
  lemma {:induction false} BindsDown(a: Log, b: Log, m: nat, n: nat)
    requires KeysResolve(a) && KeysResolve(b) && HashesBind(a, b)
    requires 1 <= m <= |a.rows| && 1 <= n <= |b.rows|
    requires a.rows[m - 1].rowHash == b.rows[n - 1].rowHash
    ensures forall i, j :: 0 <= i < m && 0 <= j < n && m - i == n - j ==> SameRow(a, i, b, j)
    ensures m < n ==> b.rows[n - m - 1].rowHash == Genesis()
    ensures n < m ==> a.rows[m - n - 1].rowHash == Genesis()
    decreases m
  {
    TopRowsBind(a, b, m, n);
    if m > 1 && n > 1 {
      BindsDown(a, b, m - 1, n - 1);
    }
  }

  ghost predicate SameRow(a: Log, i: nat, b: Log, j: nat)
    requires i < |a.rows| && j < |b.rows|
  {
    && a.rows[i].rowHash == b.rows[j].rowHash
    && Canonical(a.rows[i].event, a.rows[i].keyId) == Canonical(b.rows[j].event, b.rows[j].keyId)
  }

  /**
   * Two logs that verify from id 1 and share their last row hash carry the same
   * payloads, position by position, unless two inputs they hash collide. Without
   * knowing that the lengths agree, the shorter log is the end of the longer one
   * and the longer one contains the genesis value as a row hash.
   */
  lemma ChainBinds(mac: Mac, a: Log, b: Log)
    requires VerifiesWhole(mac, a) && VerifiesWhole(mac, b)
    requires KeysResolve(a) && KeysResolve(b)
    requires NoCollisions(mac, Inputs(a) + Inputs(b))
    requires a.rows != [] && b.rows != [] && TipHash(a.rows) == TipHash(b.rows)
    ensures |a.rows| == |b.rows| ==> forall i :: 0 <= i < |a.rows| ==> SameRow(a, i, b, i)
    ensures |a.rows| < |b.rows| ==> b.rows[|b.rows| - |a.rows| - 1].rowHash == Genesis()
    ensures |b.rows| < |a.rows| ==> a.rows[|a.rows| - |b.rows| - 1].rowHash == Genesis()
  {
    VerifiedHashesBind(mac, a, b);
    BindsDown(a, b, |a.rows|, |b.rows|);
  }

  // ---- Queries ----

  datatype Query = Query(since: Option<int>, until: Option<int>, actor: Option<string>,
                         category: Option<Category>, tenant: Option<string>, limit: nat)

  predicate Matches(q: Query, r: Row) {
    && (q.since.Some? ==> r.event.at >= q.since.value)
    && (q.until.Some? ==> r.event.at <= q.until.value)
    && (q.actor.Some? ==> r.event.actor.sub == q.actor.value)
    && (q.category.Some? ==> r.event.category == q.category.value)
    && (q.tenant.Some? ==> r.tenant == q.tenant)
  }

  /** A limit of zero means the default page of 100. */
  function PageSize(q: Query): nat {
    if q.limit == 0 then 100 else q.limit
  }

  /** Up to `n` matching rows, newest first. */
  function Newest(rows: seq<Row>, q: Query, n: nat): (page: seq<Row>)
    ensures |page| <= n
  {
    if rows == [] || n == 0 then []
    else
      var front, last := rows[..|rows| - 1], rows[|rows| - 1];
      if Matches(q, last) then [last] + Newest(front, q, n - 1) else Newest(front, q, n)
  }

  /** What is still missing from a page are the newest of the rows not looked at yet. */
  ghost predicate Paging(rows: seq<Row>, q: Query, n: nat, page: seq<Row>, i: nat)
    requires i <= |rows| && |page| <= n
  {
    Newest(rows, q, n) == page + Newest(rows[..i], q, n - |page|)
  }

  lemma MoveOver(all: seq<Row>, page: seq<Row>, left: seq<Row>, row: Row, rest: seq<Row>)
    requires all == page + left && left == [row] + rest
    ensures all == page + [row] + rest
  {
  }

  lemma NewestOfMore(rows: seq<Row>, q: Query, i: nat, n: nat)
    requires 0 < i <= |rows| && n > 0
    ensures Newest(rows[..i], q, n) ==
            if Matches(q, rows[i - 1]) then [rows[i - 1]] + Newest(rows[..i - 1], q, n - 1)
            else Newest(rows[..i - 1], q, n)
  {
    assert rows[..i][..i - 1] == rows[..i - 1];
  }

  lemma PagingStep(rows: seq<Row>, q: Query, n: nat, page: seq<Row>, i: nat)
    requires 0 < i <= |rows| && |page| < n && Paging(rows, q, n, page, i)
    ensures Matches(q, rows[i - 1]) ==> Paging(rows, q, n, page + [rows[i - 1]], i - 1)
    ensures !Matches(q, rows[i - 1]) ==> Paging(rows, q, n, page, i - 1)
  {
    var left := n - |page|;
    NewestOfMore(rows, q, i, left);
    if Matches(q, rows[i - 1]) {
      MoveOver(Newest(rows, q, n), page, Newest(rows[..i], q, left), rows[i - 1], Newest(rows[..i - 1], q, left - 1));
      assert n - |page + [rows[i - 1]]| == left - 1;
    }
  }

  /** Only matching rows, newest first, and a match is left out only for newer ones. */
  ghost predicate IsPage(rows: seq<Row>, q: Query, n: nat, page: seq<Row>) {
    && (forall i :: 0 <= i < |page| ==> page[i] in rows && Matches(q, page[i]))
    && (forall i, j :: 0 <= i < j < |page| ==> page[i].id > page[j].id)
    && (forall r :: r in rows && Matches(q, r) && r !in page ==> |page| == n && OlderThanAll(r, page))
  }

  ghost predicate OlderThanAll(r: Row, page: seq<Row>) {
    forall i :: 0 <= i < |page| ==> r.id < page[i].id
  }

  /** Some given filter turns the row away. */
  ghost predicate TurnedAway(q: Query, r: Row) {
    || (q.since.Some? && r.event.at < q.since.value)
    || (q.until.Some? && r.event.at > q.until.value)
    || (q.actor.Some? && r.event.actor.sub != q.actor.value)
    || (q.category.Some? && r.event.category != q.category.value)
    || (q.tenant.Some? && (r.tenant.None? || r.tenant.value != q.tenant.value))
  }

  lemma {:induction false} PageHoldsWhatIsLetIn(rows: seq<Row>, q: Query, n: nat)
    ensures forall r :: r in Newest(rows, q, n) ==> r in rows && !TurnedAway(q, r)
    ensures |Newest(rows, q, n)| < n ==> forall r :: r in rows && !TurnedAway(q, r) ==> r in Newest(rows, q, n)
  {
    if rows != [] && n > 0 {
      var front, last := rows[..|rows| - 1], rows[|rows| - 1];
      assert forall r :: r in rows <==> r in front || r == last;
      PageHoldsWhatIsLetIn(front, q, if Matches(q, last) then n - 1 else n);
    }
  }

  lemma PageWithNewest(front: seq<Row>, last: Row, q: Query, n: nat, page: seq<Row>)
    requires forall r :: r in front ==> r.id < last.id
    requires IsPage(front, q, n, page) && Matches(q, last)
    ensures IsPage(front + [last], q, n + 1, [last] + page)
  {
    var more := [last] + page;
    assert forall i :: 0 < i < |more| ==> more[i] == page[i - 1];
    forall r | r in front + [last] && Matches(q, r) && r !in more
      ensures |more| == n + 1 && OlderThanAll(r, more)
    {
      assert more[0] == last && r in front;
      assert r !in page;
    }
  }

  lemma PageWithoutNewest(front: seq<Row>, last: Row, q: Query, n: nat, page: seq<Row>)
    requires IsPage(front, q, n, page) && !Matches(q, last)
    ensures IsPage(front + [last], q, n, page)
  {
  }

  /**
   * A page holds only matching rows in descending id order, and a matching row is
   * missing from it only when the page is full of newer ones.
   */
  lemma {:induction false} PageIsNewestMatches(rows: seq<Row>, q: Query, n: nat)
    requires Ascending(rows)
    ensures IsPage(rows, q, n, Newest(rows, q, n))
  {
    if rows != [] && n > 0 {
      var front, last := rows[..|rows| - 1], rows[|rows| - 1];
      assert rows == front + [last];
      if Matches(q, last) {
        PageIsNewestMatches(front, q, n - 1);
        PageWithNewest(front, last, q, n - 1, Newest(front, q, n - 1));
      } else {
        PageIsNewestMatches(front, q, n);
        PageWithoutNewest(front, last, q, n, Newest(front, q, n));
      }
    }
  }

  // ---- The sink itself ----

  class InMemoryAudit {
    var rows: seq<Row>
    var nextId: int
    var hmacKey: Bytes
    var hmacKeyId: string
    var keys: map<string, Bytes>
    const mac: Mac

    function State(): Log
      reads this
    {
      Log(rows, nextId, hmacKey, hmacKeyId, keys)
    }

    constructor (mac: Mac, key: Bytes, keyId: string)
      ensures this.mac == mac && State() == NewLog(key, keyId)
    {
      this.mac := mac;
      rows := [];
      nextId := 1;
      hmacKey := key;
      hmacKeyId := keyId;
      keys := map[keyId := key];
    }

    /** Stored rows stay as they are, other ids keep their keys, and unless a key is replaced so does the chain. */
    method RegisterAndActivate(newId: string, newKey: Bytes)
      modifies this
      ensures State() == Activate(old(State()), newId, newKey)
      ensures rows == old(rows) && ResolveKey(State(), newId) == Some(newKey)
      ensures Linked(mac, old(State())) ==>
                forall id :: id != newId ==> ResolveKey(State(), id) == ResolveKey(old(State()), id)
      ensures Linked(mac, old(State())) && (newId in old(keys) ==> old(keys)[newId] == newKey) ==>
                Linked(mac, State())
    {
      ghost var before := State();
      if Linked(mac, before) && (newId in keys ==> keys[newId] == newKey) {
        ActivateKeepsLinked(mac, before, newId, newKey);
      }
      keys := keys[newId := newKey];
      hmacKey := newKey;
      hmacKeyId := newId;
    }

    /**
     * The previous hash is copied into a 32-byte buffer, which a stored hash of any
     * other length would make panic. The new hash is computed before an id is taken,
     * so a failed append consumes no id.
     */
    method AppendEvent(event: Event) returns (r: Result<int, AuditError>)
      requires rows != [] ==> |rows[|rows| - 1].rowHash| == 32
      modifies this
      ensures State() == Append(mac, old(State()), event)
      ensures r.Ok? <==> |rows| == |old(rows)| + 1
      ensures r.Ok? ==> r.value == old(nextId) && rows[|rows| - 1].id == r.value
      ensures r.Err? ==> r.error == HashFailed && State() == old(State())
      ensures r.Ok? ==>
                var row, prev := rows[|rows| - 1], TipHash(old(rows));
                && rows == old(rows) + [row] && nextId == old(nextId) + 1
                && row.event == event && row.keyId == old(hmacKeyId) && row.prevHash == Some(prev)
                && row.tenant == (if event.subject.Some? then event.subject.value.tenant else None)
                && mac(old(hmacKey), prev, Canonical(event, old(hmacKeyId))) == Some(row.rowHash)
    {
      var prevHash: Bytes := Genesis();
      if |rows| > 0 {
        prevHash := rows[|rows| - 1].rowHash;
      }
      var rowHash := RowHash(mac, hmacKey, prevHash, event, hmacKeyId);
      if rowHash.None? {
        return Err(HashFailed);
      }
      var id := nextId;
      nextId := nextId + 1;
      rows := rows + [Row(id, event, TenantOf(event), Some(prevHash), rowHash.value, hmacKeyId)];
      return Ok(id);
    }

    method QueryRows(q: Query) returns (page: seq<Row>)
      ensures page == Newest(rows, q, PageSize(q))
      ensures |page| <= (if q.limit == 0 then 100 else q.limit)
      ensures forall r :: r in page ==> r in rows && !TurnedAway(q, r)
      ensures |page| < (if q.limit == 0 then 100 else q.limit) ==>
                forall r :: r in rows && !TurnedAway(q, r) ==> r in page
    {
      var limit := if q.limit == 0 then 100 else q.limit;
      page := [];
      var i := |rows|;
      assert rows[..i] == rows;
      while i > 0 && |page| < limit
        invariant 0 <= i <= |rows| && |page| <= limit
        invariant Paging(rows, q, limit, page, i)
        decreases i
      {
        PagingStep(rows, q, limit, page, i);
        i := i - 1;
        if Matches(q, rows[i]) {
          page := page + [rows[i]];
        }
      }
      PageHoldsWhatIsLetIn(rows, q, limit);
    }

    /** The first stored row with the id. */
    method Get(id: int) returns (r: Result<Row, AuditError>)
      ensures r.Ok? ==> exists i :: 0 <= i < |rows| && rows[i] == r.value && r.value.id == id
                                     && forall j :: 0 <= j < i ==> rows[j].id != id
      ensures r.Err? ==> r.error == NotFound(id) && forall j :: 0 <= j < |rows| ==> rows[j].id != id
    {
      for i := 0 to |rows|
        invariant forall j :: 0 <= j < i ==> rows[j].id != id
      {
        if rows[i].id == id {
          return Ok(rows[i]);
        }
      }
      return Err(NotFound(id));
    }

    method Select(from: int, to: int) returns (slice: seq<Row>)
      ensures slice == InRange(rows, from, to)
    {
      slice := [];
      for i := 0 to |rows|
        invariant slice == InRange(rows[..i], from, to)
      {
        assert rows[..i + 1][..i] == rows[..i];
        if from <= rows[i].id <= to {
          slice := slice + [rows[i]];
        }
      }
      assert rows[..|rows|] == rows;
    }

    method FindBefore(from: int) returns (before: Option<Row>)
      ensures before == LastBefore(rows, from)
    {
      var i := |rows|;
      assert rows[..i] == rows;
      while i > 0
        invariant 0 <= i <= |rows|
        invariant LastBefore(rows, from) == LastBefore(rows[..i], from)
      {
        assert rows[..i][..i - 1] == rows[..i - 1];
        if rows[i - 1].id < from {
          return Some(rows[i - 1]);
        }
        i := i - 1;
      }
      return None;
    }

    /** The body of the verification loop: key, then the stored link, then the row's own hash. */
    method VerifyRow(row: Row, expectedPrev: Bytes) returns (c: Check)
      ensures c == CheckLink(mac, State(), row, expectedPrev)
    {
      var key;
      if row.keyId == hmacKeyId {
        key := hmacKey;
      } else if row.keyId in keys {
        key := keys[row.keyId];
      } else {
        return NoKey;
      }
      if |expectedPrev| != 32 {
        return Broken(expectedPrev, if row.prevHash.Some? then row.prevHash.value else []);
      }
      if row.prevHash.Some? && row.prevHash.value != expectedPrev {
        return Broken(expectedPrev, row.prevHash.value);
      }
      var expected := RowHash(mac, key, expectedPrev, row.event, row.keyId);
      if expected.None? {
        return Unhashable;
      }
      if expected.value != row.rowHash {
        return Broken(expected.value, row.rowHash);
      }
      return Sound;
    }

    /** The hash the first row of the range has to link to. */
    method ChainStart(from: int, ghost to: int, slice: seq<Row>) returns (expectedPrev: Bytes)
      requires slice == InRange(rows, from, to)
      ensures expectedPrev == Seed(rows, from, to)
    {
      expectedPrev := Genesis();
      var before := FindBefore(from);
      if before.Some? {
        expectedPrev := before.value.rowHash;
      } else if from > 1 {
        if |slice| > 0 && slice[0].prevHash.Some? {
          expectedPrev := slice[0].prevHash.value;
        }
      }
    }

    /** Walks the range until the first fault. */
    method Scan(slice: seq<Row>, seed: Bytes) returns (r: Result<Verdict, AuditError>)
      ensures AnswersFor(mac, State(), slice, seed, r)
    {
      var checked, expectedPrev := 0, seed;
      while checked < |slice|
        invariant 0 <= checked <= |slice|
        invariant expectedPrev == if checked == 0 then seed else slice[checked - 1].rowHash
        invariant SoundUpTo(mac, State(), slice, seed, checked)
      {
        var row := slice[checked];
        var c := VerifyRow(row, expectedPrev);
        assert c == CheckRow(mac, State(), slice, seed, checked);
        if c != Sound {
          StopsAt(mac, State(), slice, seed, checked);
        }
        match c {
          case NoKey =>
            return Err(UnknownKey(row.keyId));
          case Unhashable =>
            return Err(HashFailed);
          case Broken(expected, actual) =>
            return Ok(Verdict(false, checked, Some(row.id), Some(Hex.Encode(expected)), Some(Hex.Encode(actual))));
          case Sound =>
        }
        expectedPrev := row.rowHash;
        checked := checked + 1;
      }
      return Ok(Verdict(true, checked, None, None, None));
    }

    method VerifyChain(from: int, to: int) returns (r: Result<Verdict, AuditError>)
      ensures Answers(mac, State(), from, to, r)
      ensures var slice, seed := InRange(rows, from, to), Seed(rows, from, to);
              && ((r.Ok? && r.value.ok) <==> AllHold(mac, State(), slice, seed, |slice|))
              && (r.Ok? && r.value.ok ==> r == Ok(Verdict(true, |slice|, None, None, None)))
              && forall n :: 0 <= n < |slice| && AllHold(mac, State(), slice, seed, n)
                             && !AllHold(mac, State(), slice, seed, n + 1) ==>
                   Explains(mac, State(), n, slice[n], if n == 0 then seed else slice[n - 1].rowHash, r)
    {
      var slice := Select(from, to);
      var seed := ChainStart(from, to, slice);
      r := Scan(slice, seed);
      VerdictExactly(mac, State(), slice, seed, r);
    }
  }
}
