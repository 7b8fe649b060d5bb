/** `batch(size)` (index.js:190-210): a stage that collects incoming records in
    a buffer and hands them on in groups of `size`, the last group at the end
    of the stream. */
module Batching {
  import opened Sequences

  /** The groups a whole stream of records leaves the stage in: consecutive
      runs of `size` records, then the remainder if there is one. With
      `size == 0` no run is ever complete and everything leaves at the end. */
  function Chunks<T>(records: seq<T>, size: nat): seq<seq<T>>
    decreases |records|
  {
    if records == [] then []
    else if size == 0 || |records| <= size then [records]
    else [records[..size]] + Chunks(records[size..], size)
  }

  /** No record is lost, duplicated or reordered. */
  lemma {:induction false} ChunksPreserveRecords<T>(records: seq<T>, size: nat)
    ensures Flatten(Chunks(records, size)) == records
    decreases |records|
  {
    if records != [] && size != 0 && |records| > size {
      ChunksPreserveRecords(records[size..], size);
      assert Chunks(records, size)[1..] == Chunks(records[size..], size);
      assert records == records[..size] + records[size..];
    }
  }

  /** Every group is non-empty; all but the last hold exactly `size` records and
      the last at most `size` (when `size >= 1`). */
  lemma {:induction false} ChunkSizes<T>(records: seq<T>, size: nat)
    requires size >= 1
    ensures forall k :: 0 <= k < |Chunks(records, size)| ==> 1 <= |Chunks(records, size)[k]| <= size
    ensures forall k :: 0 <= k < |Chunks(records, size)| - 1 ==> |Chunks(records, size)[k]| == size
    decreases |records|
  {
    if records != [] && |records| > size {
      ChunkSizes(records[size..], size);
      var groups := Chunks(records, size);
      var tail := Chunks(records[size..], size);
      assert groups == [records[..size]] + tail;
      forall k | 1 <= k < |groups|
        ensures 1 <= |groups[k]| <= size && (k < |groups| - 1 ==> |groups[k]| == size)
      {
        assert groups[k] == tail[k - 1];
        assert 1 <= |tail[k - 1]| <= size;
      }
    }
  }

  /** One full group in front is cut off again as one group. */
  lemma ChunksCons<T>(group: seq<T>, rest: seq<T>, size: nat)
    requires size >= 1 && |group| == size
    ensures Chunks(group + rest, size) == [group] + Chunks(rest, size)
  {
    var s := group + rest;
    if rest == [] {
      assert s == group;
    } else {
      assert s[..size] == group;
      assert s[size..] == rest;
    }
  }

  /** Full groups put in front of the rest are cut off again exactly. */
  lemma {:induction false} ChunksAfterFullGroups<T>(full: seq<seq<T>>, rest: seq<T>, size: nat)
    requires size >= 1
    requires forall k :: 0 <= k < |full| ==> |full[k]| == size
    ensures Chunks(Flatten(full) + rest, size) == full + Chunks(rest, size)
  {
    if full == [] {
      assert Flatten(full) + rest == rest;
    } else {
      var tail := Flatten(full[1..]) + rest;
      assert Flatten(full) + rest == full[0] + tail;
      ChunksCons(full[0], tail, size);
      ChunksAfterFullGroups(full[1..], rest, size);
      assert full == [full[0]] + full[1..];
      assert full + Chunks(rest, size) == [full[0]] + (full[1..] + Chunks(rest, size));
    }
  }

  /** The buffer and the groups pushed so far, as the stage's closure keeps
      them. `received` records every record written to the stage; `flushed`
      says whether the end of the stream has been handled. */
  class RecordBatcher<T> {
    const size: nat
    var nextBatch: seq<T>
    var emitted: seq<seq<T>>
    ghost var received: seq<T>
    ghost var flushed: bool

    ghost predicate Valid()
      reads this
    {
      Flatten(emitted) + nextBatch == received &&
      (size >= 1 ==> |nextBatch| < size) &&
      (!flushed ==> forall k :: 0 <= k < |emitted| ==> |emitted[k]| == size) &&
      (!flushed && size == 0 ==> emitted == []) &&
      (flushed ==> nextBatch == [] && emitted == Chunks(received, size))
    }

    constructor (size: nat)
      ensures Valid() && !flushed
      ensures this.size == size && nextBatch == [] && emitted == [] && received == []
    {
      this.size := size;
      nextBatch, emitted := [], [];
      received, flushed := [], false;
    }

    /** `transform` (index.js:194-201): append the record; when the buffer
        holds exactly `size` records, push it as one group and start afresh. */
    method Push(record: T)
      requires Valid() && !flushed
      modifies this
      ensures Valid() && !flushed && received == old(received) + [record]
      ensures |old(nextBatch)| + 1 == size ==>
                emitted == old(emitted) + [old(nextBatch) + [record]] && nextBatch == []
      ensures |old(nextBatch)| + 1 != size ==>
                emitted == old(emitted) && nextBatch == old(nextBatch) + [record]
    {
      nextBatch := nextBatch + [record];
      received := received + [record];
      if |nextBatch| == size {
        FlattenAppend(emitted, [nextBatch]);
        assert Flatten([nextBatch]) == nextBatch;
        emitted := emitted + [nextBatch];
        nextBatch := [];
      }
    }

    /** `flush` (index.js:202-208): push what is left in the buffer, if
        anything. All groups pushed are then exactly the stream cut into
        chunks. */
    method Flush()
      requires Valid() && !flushed
      modifies this
      ensures Valid() && flushed && received == old(received) && nextBatch == []
      ensures emitted == old(emitted) + (if old(nextBatch) == [] then [] else [old(nextBatch)])
      ensures emitted == Chunks(received, size)
    {
      if size >= 1 {
        ChunksAfterFullGroups(emitted, nextBatch, size);
      } else {
        assert Flatten(emitted) == [];
        assert received == nextBatch;
      }
      if |nextBatch| > 0 {
        FlattenAppend(emitted, [nextBatch]);
        assert Flatten([nextBatch]) == nextBatch;
        emitted := emitted + [nextBatch];
        nextBatch := [];
      }
      flushed := true;
    }
  }

  /** Writes every record to a fresh `batch(size)` stage, then ends the stream,
      and returns the groups the stage pushed. */
  method BatchStream<T>(records: seq<T>, size: nat) returns (groups: seq<seq<T>>)
    ensures groups == Chunks(records, size)
    ensures Flatten(groups) == records
  {
    var b := new RecordBatcher<T>(size);
    for i := 0 to |records|
      invariant b.Valid() && !b.flushed && b.size == size
      invariant b.received == records[..i]
    {
      b.Push(records[i]);
      assert records[..i + 1] == records[..i] + [records[i]];
    }
    assert records[..|records|] == records;
    b.Flush();
    groups := b.emitted;
    ChunksPreserveRecords(records, size);
  }

  /** 401 records in groups of 400: one full group, then a group of one. */
  lemma FourHundredOne<T>(records: seq<T>)
    requires |records| == 401
    ensures Chunks(records, 400) == [records[..400], records[400..]]
    ensures |records[400..]| == 1
  {
    assert Chunks(records[400..], 400) == [records[400..]];
  }
}
