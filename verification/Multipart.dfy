/**
 * Chunked object writes (crates/specton-resilience/src/multipart.rs).
 *
 * `usize` is 64 bits wide and a payload holds at most `isize::MAX` bytes. Store
 * calls may fail at will; a `put` or `complete` that reports a failure may have published.
 */
module Multipart {
  import opened Common

  const USIZE: nat := 0x1_0000_0000_0000_0000
  const MAX_PAYLOAD: nat := 0x7fff_ffff_ffff_ffff
  const MIN_PART_SIZE: nat := 5 * 1024 * 1024
  const MAX_PARTS: nat := 10_000

  datatype Config = Config(threshold: nat, partSize: nat, concurrency: nat)

  function Max(a: nat, b: nat): nat {
    if a < b then b else a
  }

  /** `div_ceil`. */
  function CeilDiv(a: nat, b: nat): (q: nat)
    requires b > 0
    ensures a <= q * b
    ensures q > 0 ==> (q - 1) * b < a
  {
    if a % b == 0 then a / b else a / b + 1
  }

  lemma CeilDivBound(a: nat, b: nat, q: nat)
    requires b > 0 && a <= q * b
    ensures CeilDiv(a, b) <= q
  {
    var c := CeilDiv(a, b);
    if c > q {
      assert q * b <= (c - 1) * b by { MulMonotone(q, c - 1, b); }
      assert false;
    }
  }

  lemma MulMonotone(a: nat, b: nat, c: nat)
    requires a <= b
    ensures a * c <= b * c
  {
    assert (b - a) * c >= 0;
    assert b * c == a * c + (b - a) * c;
  }

  function Sanitized(c: Config, total: nat): Config {
    var wanted := Max(c.partSize, MIN_PART_SIZE);
    var partSize := if CeilDiv(total, wanted) > MAX_PARTS then CeilDiv(total, MAX_PARTS) else wanted;
    var concurrency := if c.concurrency < 1 then 1 else if c.concurrency > 16 then 16 else c.concurrency;
    Config(Max(c.threshold, partSize), partSize, concurrency)
  }

  /**
   * The sanitized part size is the least one that is at least as large as asked for,
   * at least the 5 MiB floor, and keeps the upload within the part limit.
   */
  lemma SanitizedIsLeast(c: Config, total: nat)
    ensures var s := Sanitized(c, total);
            && s.partSize >= c.partSize && s.partSize >= MIN_PART_SIZE && CeilDiv(total, s.partSize) <= MAX_PARTS
            && (forall p: nat :: p >= c.partSize && p >= MIN_PART_SIZE && CeilDiv(total, p) <= MAX_PARTS ==>
                s.partSize <= p)
            && s.threshold >= c.threshold && s.threshold >= s.partSize && 1 <= s.concurrency <= 16
            && (s.threshold == c.threshold || s.threshold == s.partSize)
            && (1 <= c.concurrency <= 16 ==> s.concurrency == c.concurrency)
            && (c.concurrency == 0 ==> s.concurrency == 1) && (c.concurrency > 16 ==> s.concurrency == 16)
  {
    var wanted, s := Max(c.partSize, MIN_PART_SIZE), Sanitized(c, total);
    if CeilDiv(total, wanted) > MAX_PARTS {
      if CeilDiv(total, MAX_PARTS) < wanted {
        MulMonotone(CeilDiv(total, MAX_PARTS), wanted, MAX_PARTS);
        CeilDivBound(total, wanted, MAX_PARTS);
      }
      CeilDivBound(total, s.partSize, MAX_PARTS);
      forall p: nat | p >= wanted && CeilDiv(total, p) <= MAX_PARTS
        ensures s.partSize <= p
      {
        MulMonotone(CeilDiv(total, p), MAX_PARTS, p);
        CeilDivBound(total, MAX_PARTS, p);
      }
    }
  }

  // ---- Splitting ----

  function Split(data: Bytes, partSize: nat): seq<Bytes>
    requires partSize > 0
  {
    if data == [] then []
    else if |data| <= partSize then [data]
    else [data[..partSize]] + Split(data[partSize..], partSize)
  }

  function Concat(parts: seq<Bytes>): Bytes {
    if parts == [] then [] else parts[0] + Concat(parts[1..])
  }

  lemma {:induction false} ConcatSplit(data: Bytes, partSize: nat)
    requires partSize > 0
    ensures Concat(Split(data, partSize)) == data
  {
    if |data| > partSize {
      ConcatSplit(data[partSize..], partSize);
    } else if data != [] {
      assert Concat([data][1..]) == [];
    }
  }

  lemma {:induction false} SplitSizes(data: Bytes, partSize: nat)
    requires partSize > 0
    ensures var parts := Split(data, partSize);
            && (forall i :: 0 <= i < |parts| - 1 ==> |parts[i]| == partSize)
            && (parts != [] ==> 1 <= |parts[|parts| - 1]| <= partSize)
            && (data != [] ==> parts != [] && (|parts| - 1) * partSize < |data|)
            && |parts| == CeilDiv(|data|, partSize)
  {
    if |data| > partSize {
      var rest := data[partSize..];
      SplitSizes(rest, partSize);
      CountOneMore(|data|, partSize);
    } else {
      CountSmall(|data|, partSize);
    }
  }

  lemma CountOneMore(total: nat, partSize: nat)
    requires total > partSize > 0
    ensures CeilDiv(total, partSize) == 1 + CeilDiv(total - partSize, partSize)
    ensures (CeilDiv(total, partSize) - 1) * partSize < total
  {
    var q := CeilDiv(total - partSize, partSize);
    assert (q + 1) * partSize == q * partSize + partSize;
    CeilDivBound(total, partSize, q + 1);
    var c := CeilDiv(total, partSize);
    assert (c - 1) * partSize == c * partSize - partSize;
    CeilDivBound(total - partSize, partSize, c - 1);
  }

  lemma CountSmall(total: nat, partSize: nat)
    requires total <= partSize && partSize > 0
    ensures CeilDiv(total, partSize) == if total == 0 then 0 else 1
  {
    CeilDivBound(total, partSize, if total == 0 then 0 else 1);
  }

  /**
   * Every payload sent as a multipart upload is cut into 2 to 10,000 parts that
   * concatenate to it, and every part but the last has at least 5 MiB.
   */
  lemma UploadIsLegal(c: Config, data: Bytes)
    requires |data| > Sanitized(c, |data|).threshold
    ensures var parts := Split(data, Sanitized(c, |data|).partSize);
            && Concat(parts) == data
            && 2 <= |parts| <= MAX_PARTS
            && forall i :: 0 <= i < |parts| - 1 ==> |parts[i]| >= MIN_PART_SIZE
  {
    var s := Sanitized(c, |data|);
    SanitizedIsLeast(c, |data|);
    ConcatSplit(data, s.partSize);
    SplitSizes(data, s.partSize);
    CountOneMore(|data|, s.partSize);
  }

  /** Addition of two `usize` values that must not overflow. */
  function Add(a: nat, b: nat): nat
    requires a + b < USIZE
  {
    a + b
  }

  method CutParts(data: Bytes, partSize: nat) returns (parts: seq<Bytes>)
    requires 0 < partSize < |data| <= MAX_PAYLOAD
    ensures parts == Split(data, partSize)
  {
    parts := [];
    var total, offset := |data|, 0;
    assert data[0..] == data;
    while offset < total
      invariant 0 <= offset <= total
      invariant Split(data, partSize) == parts + Split(data[offset..], partSize)
    {
      var end := if Add(offset, partSize) < total then Add(offset, partSize) else total;
      ghost var rest := data[offset..];
      assert rest[..end - offset] == data[offset..end] && rest[end - offset..] == data[end..];
      assert end == total ==> rest == data[offset..end] && data[end..] == [];
      assert Split(rest, partSize) == [data[offset..end]] + Split(data[end..], partSize);
      parts := parts + [data[offset..end]];
      offset := end;
    }
  }

  // ---- Uploading ----

  /** The object a completed upload publishes: its parts in part-number order. */
  function Assemble(uploaded: map<nat, Bytes>, count: nat): Bytes
    requires forall i :: 0 <= i < count ==> i in uploaded
  {
    if count == 0 then [] else Assemble(uploaded, count - 1) + uploaded[count - 1]
  }

  lemma {:induction false} ConcatSnoc(parts: seq<Bytes>, last: Bytes)
    ensures Concat(parts + [last]) == Concat(parts) + last
  {
    if parts == [] {
      assert parts + [last] == [last];
      assert Concat([last][1..]) == [];
    } else {
      assert (parts + [last])[1..] == parts[1..] + [last];
      ConcatSnoc(parts[1..], last);
    }
  }

  /** In whatever order the parts arrived, the object is their concatenation. */
  lemma {:induction false} AssembleIsConcat(parts: seq<Bytes>, uploaded: map<nat, Bytes>, count: nat)
    requires count <= |parts| && forall i :: 0 <= i < count ==> i in uploaded && uploaded[i] == parts[i]
    ensures Assemble(uploaded, count) == Concat(parts[..count])
  {
    if count > 0 {
      AssembleIsConcat(parts, uploaded, count - 1);
      assert parts[..count] == parts[..count - 1] + [parts[count - 1]];
      ConcatSnoc(parts[..count - 1], parts[count - 1]);
    }
  }

  class ObjectStore {
    var objects: map<string, Bytes>

    /** A reliable store carries out every call and says so. */
    const reliable: bool

    /** A failure leaves it open whether the write took effect. */
    method Put(location: string, data: Bytes) returns (ok: bool)
      modifies this
      ensures objects == old(objects)[location := data] || (!ok && objects == old(objects))
      ensures reliable ==> ok
    {
      var written: bool, reported: bool := *, *;
      written, reported := written || reliable, reported || reliable;
      if written {
        objects := objects[location := data];
      }
      return written && reported;
    }

    /** Publishes the parts of an upload as one object, or nothing; again a failure leaves it open which. */
    method Complete(location: string, uploaded: map<nat, Bytes>, count: nat) returns (ok: bool)
      requires forall i :: 0 <= i < count ==> i in uploaded
      modifies this
      ensures objects == old(objects)[location := Assemble(uploaded, count)] || (!ok && objects == old(objects))
      ensures reliable ==> ok
    {
      var published: bool, reported: bool := *, *;
      published, reported := published || reliable, reported || reliable;
      if published {
        objects := objects[location := Assemble(uploaded, count)];
      }
      return published && reported;
    }
  }

  function PartNumbers(n: nat): (s: set<nat>)
    ensures forall i: int :: i in s <==> 0 <= i < n
  {
    if n == 0 then {} else PartNumbers(n - 1) + {n - 1}
  }

  /** Drives the parts to completion in any order; every part is awaited even after a failure. */
  method UploadAll(store: ObjectStore, parts: seq<Bytes>) returns (uploaded: map<nat, Bytes>, ok: bool)
    ensures store.reliable ==> ok
    ensures ok ==> forall i :: 0 <= i < |parts| ==> i in uploaded && uploaded[i] == parts[i]
    ensures forall i :: i in uploaded ==> i < |parts| && uploaded[i] == parts[i]
  {
    uploaded, ok := map[], true;
    var pending := PartNumbers(|parts|);
    while pending != {}
      invariant pending <= PartNumbers(|parts|)
      invariant forall i :: i in uploaded ==> i < |parts| && uploaded[i] == parts[i]
      invariant store.reliable ==> ok
      invariant ok ==> forall i :: i in PartNumbers(|parts|) ==> i in pending || i in uploaded
      decreases |pending|
    {
      var i :| i in pending;
      var sent: bool := *;
      if sent || store.reliable {
        uploaded := uploaded[i := parts[i]];
      } else {
        ok := false;
      }
      pending := pending - {i};
    }
    assert ok ==> forall i :: 0 <= i < |parts| ==> i in PartNumbers(|parts|);
  }

  /** All or nothing: success or failure, the object is either exactly the payload or untouched. */
  method PutChunked(store: ObjectStore, location: string, data: Bytes, config: Config) returns (ok: bool)
    requires |data| <= MAX_PAYLOAD
    modifies store
    ensures store.objects == old(store.objects)[location := data] || (!ok && store.objects == old(store.objects))
    ensures store.reliable ==> ok
  {
    var total := |data|;
    var c := Sanitized(config, total);
    SanitizedIsLeast(config, total);
    if total <= c.threshold {
      ok := store.Put(location, data);
      return;
    }
    ok := *; // starting the upload
    if !ok && !store.reliable {
      return;
    }
    var parts := CutParts(data, c.partSize);
    var uploaded, sent := UploadAll(store, parts);
    if !sent {
      return false;
    }
    UploadIsLegal(config, data);
    AssembleIsConcat(parts, uploaded, |parts|);
    assert parts[..|parts|] == parts;
    ok := store.Complete(location, uploaded, |parts|);
  }
}
