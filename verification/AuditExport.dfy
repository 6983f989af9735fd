/**
 * JSONL export of audit rows and the check of an exported file
 * (crates/specton-audit/src/export.rs).
 *
 * Hex text, newline splitting and the fold over lines are modelled in full. JSON
 * itself is a parameter: `enc` writes one line, `dec` reads one back.
 */
module AuditExport {
  import opened Common
  import opened Json
  import opened AuditEvents
  import Hex
  import Merkle

  datatype ExportLine = ExportLine(
    id: int, at: int, tenant: Option<string>, category: string, action: string, actorSub: string,
    actorIp: Option<string>, actorUa: Option<string>, subject: Option<Json>, outcome: string,
    errorCode: Option<string>, attributes: map<string, Json>, prevHash: Option<string>,
    rowHash: string, keyId: string)

  datatype ExportError =
    | Empty | BadJson | BadHex | BadHashLength | RowHashLength(id: int)
    | CompressFailed | PutFailed | InsertFailed

  type Pairing = (Hash32, Hash32) -> Hash32

  const NEWLINE: Byte := 10

  function Field(name: string, v: Option<string>): map<string, Json> {
    if v.Some? then map[name := Str(v.value)] else map[]
  }

  /** Absent subject fields are left out of the object. */
  function SubjectJson(s: Subject): Json {
    Obj(Field("tenant", s.tenant) + Field("project", s.project) + Field("repo", s.repo)
        + Field("reference", s.reference) + Field("digest", s.digest))
  }

  function LineOf(row: Row): ExportLine {
    ExportLine(row.id, row.event.at, row.tenant, CategoryText(row.event.category), row.event.action,
               row.event.actor.sub, row.event.actor.sourceIp, row.event.actor.ua,
               if row.event.subject.Some? then Some(SubjectJson(row.event.subject.value)) else None,
               if row.event.outcome.Success? then "success" else "failure",
               if row.event.outcome.Success? then None else Some(row.event.outcome.code),
               row.event.attributes,
               if row.prevHash.Some? then Some(Hex.Encode(row.prevHash.value)) else None,
               Hex.Encode(row.rowHash), row.keyId)
  }

  /** The member of an object read as text, absent when it is not there. */
  function TextOf(j: Json, name: string): Option<string> {
    var v := j.Get(name);
    if v.Some? then v.value.AsStr() else None
  }

  /** Adding a field under a name of its own keeps the others and can be read back. */
  lemma FieldAdded(m: map<string, Json>, name: string, v: Option<string>)
    requires name !in m
    ensures TextOf(Obj(m + Field(name, v)), name) == v
    ensures (m + Field(name, v)).Keys == m.Keys + (if v.Some? then {name} else {})
    ensures forall n :: n != name ==> TextOf(Obj(m + Field(name, v)), n) == TextOf(Obj(m), n)
  {
  }

  lemma FieldNamesDiffer()
    ensures "tenant" != "project" && "tenant" != "repo" && "tenant" != "reference" && "tenant" != "digest"
    ensures "project" != "repo" && "project" != "reference" && "project" != "digest"
    ensures "repo" != "reference" && "repo" != "digest" && "reference" != "digest"
  {
    assert "tenant"[0] == 't' && "project"[0] == 'p' && "digest"[0] == 'd' && "reference"[0] == 'r';
    assert |"repo"| == 4 && |"reference"| == 9;
  }

  lemma FieldsAdded(a: string, va: Option<string>, b: string, vb: Option<string>, c: string, vc: Option<string>,
                    d: string, vd: Option<string>, e: string, ve: Option<string>)
    requires a != b && a != c && a != d && a != e && b != c && b != d && b != e && c != d && c != e && d != e
    ensures var j := Obj(Field(a, va) + Field(b, vb) + Field(c, vc) + Field(d, vd) + Field(e, ve));
            && TextOf(j, a) == va && TextOf(j, b) == vb && TextOf(j, c) == vc && TextOf(j, d) == vd
            && TextOf(j, e) == ve
  {
    var m1 := Field(a, va);
    var m2 := m1 + Field(b, vb);
    var m3 := m2 + Field(c, vc);
    FieldAdded(m1, b, vb);
    FieldAdded(m2, c, vc);
    FieldAdded(m3, d, vd);
    FieldAdded(m3 + Field(d, vd), e, ve);
  }

  /** The JSON object of a subject reads back, field by field. */
  lemma SubjectReadsBack(s: Subject)
    ensures var j := SubjectJson(s);
            Subject(TextOf(j, "tenant"), TextOf(j, "project"), TextOf(j, "repo"), TextOf(j, "reference"),
                    TextOf(j, "digest")) == s
  {
    FieldNamesDiffer();
    FieldsAdded("tenant", s.tenant, "project", s.project, "repo", s.repo, "reference", s.reference,
                "digest", s.digest);
  }

  /** A row can be read off its line, field by field, up to the actor's role. */
  lemma LineTellsRow(row: Row)
    ensures var l, e := LineOf(row), row.event;
            && l.id == row.id && l.at == e.at && l.tenant == row.tenant && l.keyId == row.keyId
            && ParseCategory(l.category) == Some(e.category) && l.action == e.action && l.attributes == e.attributes
            && l.actorSub == e.actor.sub && l.actorIp == e.actor.sourceIp && l.actorUa == e.actor.ua
            && (l.subject.Some? <==> e.subject.Some?)
            && (e.subject.Some? ==> l.subject.value == SubjectJson(e.subject.value))
            && (l.outcome == "success" <==> e.outcome.Success?) && (l.outcome == "failure" <==> e.outcome.Failure?)
            && l.errorCode == (if e.outcome.Failure? then Some(e.outcome.code) else None)
            && (l.prevHash.Some? <==> row.prevHash.Some?)
            && (row.prevHash.Some? ==> Hex.Decode(l.prevHash.value) == row.prevHash)
            && Hex.Decode(l.rowHash) == Some(row.rowHash)
  {
    PayloadTellsEvent(row.event, row.keyId);
    Hex.RoundTrip(row.rowHash);
    if row.prevHash.Some? {
      Hex.RoundTrip(row.prevHash.value);
    }
  }

  // ---- Writing ----

  function EncodedLines(enc: ExportLine -> Bytes, rows: seq<Row>): (lines: seq<Bytes>)
    ensures |lines| == |rows|
    ensures forall i :: 0 <= i < |rows| ==> lines[i] == enc(LineOf(rows[i]))
  {
    seq(|rows|, i requires 0 <= i < |rows| => enc(LineOf(rows[i])))
  }

  /** Every line followed by a newline. */
  function Terminated(lines: seq<Bytes>): Bytes {
    if lines == [] then [] else lines[0] + [NEWLINE] + Terminated(lines[1..])
  }

  function Jsonl(enc: ExportLine -> Bytes, rows: seq<Row>): Bytes {
    Terminated(EncodedLines(enc, rows))
  }

  lemma {:induction false} TerminatedSnoc(lines: seq<Bytes>, last: Bytes)
    ensures Terminated(lines + [last]) == Terminated(lines) + last + [NEWLINE]
  {
    if lines == [] {
      assert lines + [last] == [last];
      assert Terminated([last][1..]) == [];
    } else {
      TerminatedSnoc(lines[1..], last);
      assert (lines + [last])[1..] == lines[1..] + [last];
    }
  }

  lemma OneMoreLine(lines: seq<Bytes>, i: nat)
    requires i < |lines|
    ensures Terminated(lines[..i + 1]) == Terminated(lines[..i]) + lines[i] + [NEWLINE]
  {
    TerminatedSnoc(lines[..i], lines[i]);
    assert lines[..i + 1] == lines[..i] + [lines[i]];
  }

  method EncodeJsonl(enc: ExportLine -> Bytes, rows: seq<Row>) returns (out: Bytes)
    ensures out == Jsonl(enc, rows)
  {
    out := [];
    ghost var lines := EncodedLines(enc, rows);
    for i := 0 to |rows|
      invariant out == Terminated(lines[..i])
    {
      OneMoreLine(lines, i);
      out := out + enc(LineOf(rows[i]));
      out := out + [NEWLINE];
    }
    assert lines[..|rows|] == lines;
  }

  function Prepend(front: seq<Hash32>, r: Result<seq<Hash32>, ExportError>): Result<seq<Hash32>, ExportError> {
    if r.Err? then r else Ok(front + r.value)
  }

  lemma PrependOne(front: seq<Hash32>, x: Hash32, r: Result<seq<Hash32>, ExportError>)
    ensures Prepend(front, Prepend([x], r)) == Prepend(front + [x], r)
  {
    if r.Ok? {
      assert front + ([x] + r.value) == front + [x] + r.value;
    }
  }

  lemma PrependNothing(r: Result<seq<Hash32>, ExportError>)
    ensures Prepend([], r) == r
  {
    if r.Ok? {
      assert [] + r.value == r.value;
    }
  }

  /** Row hashes as Merkle leaves; a hash of the wrong length stops at the first such row. */
  function RowLeaves(rows: seq<Row>): Result<seq<Hash32>, ExportError> {
    if rows == [] then Ok([])
    else if |rows[0].rowHash| != 32 then Err(RowHashLength(rows[0].id))
    else Prepend([rows[0].rowHash], RowLeaves(rows[1..]))
  }

  lemma {:induction false} RowLeavesAreHashes(rows: seq<Row>)
    ensures RowLeaves(rows).Ok? <==> forall i :: 0 <= i < |rows| ==> |rows[i].rowHash| == 32
    ensures RowLeaves(rows).Ok? ==> |RowLeaves(rows).value| == |rows|
                                    && forall i :: 0 <= i < |rows| ==> RowLeaves(rows).value[i] == rows[i].rowHash
  {
    if rows != [] {
      RowLeavesAreHashes(rows[1..]);
      assert forall i :: 1 <= i < |rows| ==> rows[i] == rows[1..][i - 1];
    }
  }

  function RootForRows(h: Pairing, rows: seq<Row>): Result<Hash32, ExportError> {
    var leaves := RowLeaves(rows);
    if leaves.Err? then Err(leaves.error) else Ok(Merkle.Root(h, Genesis(), leaves.value))
  }

  method ComputeRootForRows(h: Pairing, rows: seq<Row>) returns (r: Result<Hash32, ExportError>)
    ensures r == RootForRows(h, rows)
  {
    var leaves: seq<Hash32> := [];
    PrependNothing(RowLeaves(rows));
    assert rows[0..] == rows;
    for i := 0 to |rows|
      invariant RowLeaves(rows) == Prepend(leaves, RowLeaves(rows[i..]))
    {
      assert rows[i..][1..] == rows[i + 1..];
      if |rows[i].rowHash| != 32 {
        return Err(RowHashLength(rows[i].id));
      }
      PrependOne(leaves, rows[i].rowHash, RowLeaves(rows[i + 1..]));
      leaves := leaves + [rows[i].rowHash];
    }
    assert leaves + [] == leaves;
    var root := Merkle.MerkleRoot(h, Genesis(), leaves);
    return Ok(root);
  }

  // ---- Reading back ----

  /** The pieces between newlines; `k` newlines give `k + 1` pieces. */
  function Pieces(b: Bytes): (ps: seq<Bytes>)
    ensures |ps| >= 1
  {
    if b == [] then [[]]
    else if b[0] == NEWLINE then [[]] + Pieces(b[1..])
    else
      var rest := Pieces(b[1..]);
      [[b[0]] + rest[0]] + rest[1..]
  }

  function LineHash(dec: Bytes -> Option<ExportLine>, piece: Bytes): Result<Hash32, ExportError> {
    var line := dec(piece);
    if line.None? then Err(BadJson)
    else
      var bytes := Hex.Decode(line.value.rowHash);
      if bytes.None? then Err(BadHex)
      else if |bytes.value| != 32 then Err(BadHashLength)
      else Ok(bytes.value)
  }

  function PieceLeaves(dec: Bytes -> Option<ExportLine>, ps: seq<Bytes>): Result<seq<Hash32>, ExportError> {
    if ps == [] then Ok([])
    else if ps[0] == [] then PieceLeaves(dec, ps[1..])
    else
      var first := LineHash(dec, ps[0]);
      if first.Err? then Err(first.error)
      else Prepend([first.value], PieceLeaves(dec, ps[1..]))
  }

  function VerifyExport(dec: Bytes -> Option<ExportLine>, h: Pairing, jsonl: Bytes): Result<Hash32, ExportError> {
    var leaves := PieceLeaves(dec, Pieces(jsonl));
    if leaves.Err? then Err(leaves.error)
    else if leaves.value == [] then Err(Empty)
    else Ok(Merkle.Root(h, Genesis(), leaves.value))
  }

  method VerifyExportBytes(dec: Bytes -> Option<ExportLine>, h: Pairing, jsonl: Bytes)
    returns (r: Result<Hash32, ExportError>)
    ensures r == VerifyExport(dec, h, jsonl)
  {
    var ps := Pieces(jsonl);
    var leaves: seq<Hash32> := [];
    PrependNothing(PieceLeaves(dec, ps));
    assert ps[0..] == ps;
    for i := 0 to |ps|
      invariant PieceLeaves(dec, ps) == Prepend(leaves, PieceLeaves(dec, ps[i..]))
    {
      assert ps[i..][1..] == ps[i + 1..];
      if ps[i] == [] {
        continue;
      }
      var line := dec(ps[i]);
      if line.None? {
        return Err(BadJson);
      }
      var bytes := Hex.Decode(line.value.rowHash);
      if bytes.None? {
        return Err(BadHex);
      }
      if |bytes.value| != 32 {
        return Err(BadHashLength);
      }
      assert LineHash(dec, ps[i]) == Ok(bytes.value);
      PrependOne(leaves, bytes.value, PieceLeaves(dec, ps[i + 1..]));
      leaves := leaves + [bytes.value];
    }
    assert leaves + [] == leaves;
    if |leaves| == 0 {
      return Err(Empty);
    }
    var root := Merkle.MerkleRoot(h, Genesis(), leaves);
    return Ok(root);
  }

  // ---- Round trip ----

  /** What is assumed of JSON for one line: no newline inside, not empty, and it reads back. */
  ghost predicate Reads(enc: ExportLine -> Bytes, dec: Bytes -> Option<ExportLine>, line: ExportLine) {
    enc(line) != [] && NEWLINE !in enc(line) && dec(enc(line)) == Some(line)
  }

  lemma {:induction false} PiecesOfLine(a: Bytes, rest: Bytes)
    requires NEWLINE !in a
    ensures Pieces(a + [NEWLINE] + rest) == [a] + Pieces(rest)
  {
    var b := a + [NEWLINE] + rest;
    if a == [] {
      assert b[1..] == rest;
    } else {
      assert b[1..] == a[1..] + [NEWLINE] + rest;
      PiecesOfLine(a[1..], rest);
      assert [a[0]] + a[1..] == a;
    }
  }

  lemma {:induction false} LeavesReadBack(enc: ExportLine -> Bytes, dec: Bytes -> Option<ExportLine>, rows: seq<Row>)
    requires forall i :: 0 <= i < |rows| ==> Reads(enc, dec, LineOf(rows[i]))
    ensures PieceLeaves(dec, Pieces(Jsonl(enc, rows))) ==
            if RowLeaves(rows).Ok? then RowLeaves(rows) else Err(BadHashLength)
  {
    var lines := EncodedLines(enc, rows);
    if rows == [] {
      assert Pieces([])[1..] == [];
    } else {
      LeavesReadBack(enc, dec, rows[1..]);
      assert lines[1..] == EncodedLines(enc, rows[1..]);
      assert Reads(enc, dec, LineOf(rows[0]));
      PiecesOfLine(lines[0], Terminated(lines[1..]));
      var ps := Pieces(Jsonl(enc, rows));
      assert ps[0] == lines[0] && ps[1..] == Pieces(Jsonl(enc, rows[1..]));
      Hex.RoundTrip(rows[0].rowHash);
      assert LineHash(dec, ps[0]) == if |rows[0].rowHash| == 32 then Ok(rows[0].rowHash) else Err(BadHashLength);
    }
  }

  /**
   * Checking an export gives back the Merkle root of the exported rows exactly when
   * there is a row and every hash has 32 bytes; the two failures are told apart.
   */
  lemma VerifyReadsWhatEncodeWrote(enc: ExportLine -> Bytes, dec: Bytes -> Option<ExportLine>, h: Pairing,
                                   rows: seq<Row>)
    requires forall i :: 0 <= i < |rows| ==> Reads(enc, dec, LineOf(rows[i]))
    ensures var r := VerifyExport(dec, h, Jsonl(enc, rows));
            && (r.Ok? <==> rows != [] && forall i :: 0 <= i < |rows| ==> |rows[i].rowHash| == 32)
            && (r.Ok? ==> r == RootForRows(h, rows))
            && (rows == [] ==> r == Err(Empty))
            && (r.Err? && rows != [] ==> r == Err(BadHashLength))
  {
    LeavesReadBack(enc, dec, rows);
    RowLeavesAreHashes(rows);
  }
}
