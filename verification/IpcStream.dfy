/** Streaming a data frame: the schema first, then every record batch, partition by partition. */
module IpcStream {
  type Schema = nat
  type RecordBatch = nat

  datatype Frame = Frame(schema: Schema, partitions: seq<seq<RecordBatch>>)
  datatype Buffer = SchemaBuffer(schema: Schema) | BatchBuffer(batch: RecordBatch)
  datatype NextResult = Some(buffer: Buffer) | Done | Error

  function Batches(partitions: seq<seq<RecordBatch>>): seq<RecordBatch>
    decreases |partitions|
  {
    if partitions == [] then [] else Batches(partitions[..|partitions| - 1]) + partitions[|partitions| - 1]
  }

  function BatchBuffers(batches: seq<RecordBatch>): seq<Buffer> {
    seq(|batches|, i requires 0 <= i < |batches| => BatchBuffer(batches[i]))
  }

  /** The buffers of a frame. */
  function StreamOf(f: Frame): seq<Buffer> { [SchemaBuffer(f.schema)] + BatchBuffers(Batches(f.partitions)) }

  lemma {:induction false} BatchesOfPrefix(partitions: seq<seq<RecordBatch>>, k: nat)
    requires k <= |partitions|
    ensures Batches(partitions[..k]) <= Batches(partitions)
    decreases |partitions| - k
  {
    if k == |partitions| {
      assert partitions[..k] == partitions;
    } else {
      assert partitions[..k + 1][..k] == partitions[..k];
      BatchesOfPrefix(partitions, k + 1);
    }
  }

  /** The batch at a position of a partition, in the order of all batches. */
  lemma BatchAt(partitions: seq<seq<RecordBatch>>, p: nat, b: nat)
    requires p < |partitions| && b <= |partitions[p]|
    ensures |Batches(partitions[..p])| + b <= |Batches(partitions)|
    ensures b < |partitions[p]| ==>
              |Batches(partitions[..p])| + b < |Batches(partitions)|
                  && Batches(partitions)[|Batches(partitions[..p])| + b] == partitions[p][b]
    ensures p + 1 == |partitions| ==> |Batches(partitions[..p])| + |partitions[p]| == |Batches(partitions)|
  {
    assert partitions[..p + 1][..p] == partitions[..p];
    BatchesOfPrefix(partitions, p + 1);
    if p + 1 == |partitions| { assert partitions[..p + 1] == partitions; }
  }

  /** The number of batches in the partitions before `p`. */
  function Before(partitions: seq<seq<RecordBatch>>, p: nat): nat
    requires p <= |partitions|
  {
    if p == 0 then 0 else Before(partitions, p - 1) + |partitions[p - 1]|
  }

  lemma {:induction false} BatchesBefore(partitions: seq<seq<RecordBatch>>, p: nat)
    requires p <= |partitions|
    ensures |Batches(partitions[..p])| == Before(partitions, p)
    decreases p
  {
    if p > 0 {
      BatchesBefore(partitions, p - 1);
      assert partitions[..p][..p - 1] == partitions[..p - 1];
    }
  }

  /** A stream begins with the schema; then every batch comes after those before it in its partition and
      all those of the partitions before. */
  lemma StreamInOrder(f: Frame, p: nat, b: nat)
    requires p < |f.partitions| && b < |f.partitions[p]|
    ensures |StreamOf(f)| == 1 + Before(f.partitions, |f.partitions|) && StreamOf(f)[0] == SchemaBuffer(f.schema)
    ensures 1 + Before(f.partitions, p) + b < |StreamOf(f)|
    ensures StreamOf(f)[1 + Before(f.partitions, p) + b] == BatchBuffer(f.partitions[p][b])
  {
    BatchAt(f.partitions, p, b);
    BatchesBefore(f.partitions, p);
    BatchesBefore(f.partitions, |f.partitions|);
    assert f.partitions[..|f.partitions|] == f.partitions;
  }

  class DataFrameIpcStream {
    var flushedSchema: bool
    var currentPartition: nat
    var nextBatch: nat

    constructor ()
      ensures !flushedSchema && currentPartition == 0 && nextBatch == 0
    {
      flushedSchema, currentPartition, nextBatch := false, 0, 0;
    }

    ghost predicate Valid(f: Frame)
      reads this
    {
      && currentPartition < |f.partitions|
      && nextBatch <= |f.partitions[currentPartition]|
      && (!flushedSchema ==> currentPartition == 0 && nextBatch == 0)
    }

    /** How many buffers have been handed out. */
    ghost function Position(f: Frame): nat
      reads this
      requires Valid(f)
    {
      if !flushedSchema then 0 else 1 + |Batches(f.partitions[..currentPartition])| + nextBatch
    }

    /** Go on to the next partition that has a batch left; handing out nothing moves no position. */
    method SkipEmpty(f: Frame) returns (found: bool)
      requires Valid(f) && flushedSchema
      modifies this
      ensures Valid(f) && flushedSchema && Position(f) == old(Position(f)) <= |StreamOf(f)|
      ensures found ==> nextBatch < |f.partitions[currentPartition]|
      ensures !found ==> Position(f) == |StreamOf(f)|
    {
      ghost var position := Position(f);
      BatchAt(f.partitions, currentPartition, nextBatch);
      while nextBatch >= |f.partitions[currentPartition]|
        invariant Valid(f) && flushedSchema && Position(f) == position <= |StreamOf(f)|
        decreases |f.partitions| - currentPartition
      {
        BatchAt(f.partitions, currentPartition, nextBatch);
        if currentPartition + 1 >= |f.partitions| {
          return false;
        }
        assert f.partitions[..currentPartition + 1][..currentPartition] == f.partitions[..currentPartition];
        currentPartition := currentPartition + 1;
        nextBatch := 0;
      }
      found := true;
    }

    /** The next buffer of the stream; once there is none, there never is one again. The writer may
        fail on a batch, which counts as handed out. */
    method Next(f: Frame, writable: bool) returns (r: NextResult)
      requires Valid(f)
      modifies this
      ensures Valid(f)
      ensures old(Position(f)) <= |StreamOf(f)|
      ensures r == Done <==> old(Position(f)) == |StreamOf(f)|
      ensures r == Done ==> Position(f) == old(Position(f))
      ensures r != Done ==> Position(f) == old(Position(f)) + 1
      ensures r.Some? ==> r.buffer == StreamOf(f)[old(Position(f))]
      ensures r == Error <==> !writable && old(Position(f)) < |StreamOf(f)|
    {
      if !flushedSchema {
        flushedSchema := true;
        if !writable {
          return Error;
        }
        return Some(SchemaBuffer(f.schema));
      }
      var found := SkipEmpty(f);
      if !found {
        return Done;
      }
      BatchAt(f.partitions, currentPartition, nextBatch);
      var thisBatch := nextBatch;
      nextBatch := nextBatch + 1;
      if !writable {
        return Error;
      }
      return Some(BatchBuffer(f.partitions[currentPartition][thisBatch]));
    }
  }
}
