/** The chaser cursor over the transaction log: each read moves the chaser
    checkpoint to where the next read starts, and closing makes it durable. */
module ChunkChaser {
  import opened Wrappers
  import opened Primitives
  import opened LogRecords

  /** An `ICheckpoint`: `Write` records a position, `Flush` makes the last
      written one durable, and `Read` returns the durable one. */
  class Checkpoint {
    var written: int64
    var flushed: int64
    /** How many times the checkpoint was flushed. */
    var flushCount: nat

    constructor (position: int64)
      ensures written == position && flushed == position && flushCount == 0
    {
      written := position;
      flushed := position;
      flushCount := 0;
    }

    function Read(): int64
      reads this
    {
      flushed
    }

    method Write(position: int64)
      modifies this
      ensures written == position && flushed == old(flushed) && flushCount == old(flushCount)
    {
      written := position;
    }

    method Flush()
      modifies this
      ensures written == old(written) && flushed == old(written) && flushCount == old(flushCount) + 1
    {
      flushed := written;
      flushCount := flushCount + 1;
    }
  }

  /** A read the stand-in reader serves: its result, and the position a
      failed read leaves the reader at (a failed read may still have moved the
      cursor, past a chunk boundary say). */
  datatype ReadStep = ReadStep(result: SeqReadResult, stopPosition: int64)

  /** A stand-in for `TFChunkReader`: it serves the reads it was given, in
      order, moving to each successful record's post position or to a failed
      read's stop position; once they are used up, every read fails where the
      reader stands. */
  class ChunkReader {
    var currentPosition: int64
    var pending: seq<ReadStep>

    constructor (position: int64, pending: seq<ReadStep>)
      ensures currentPosition == position && this.pending == pending
    {
      currentPosition := position;
      this.pending := pending;
    }

    /** What the next read returns. */
    function NextResult(): SeqReadResult
      reads this
    {
      if |pending| == 0 then SeqReadResult(false, true, None, currentPosition, currentPosition) else pending[0].result
    }

    /** Where the reader stands after the next read. */
    function NextPosition(): int64
      reads this
    {
      if NextResult().success then NextResult().recordPostPosition
      else if |pending| == 0 then currentPosition
      else pending[0].stopPosition
    }

    method TryReadNext() returns (res: SeqReadResult)
      modifies this
      ensures res == old(NextResult())
      ensures currentPosition == old(NextPosition())
      ensures res.success ==> currentPosition == res.recordPostPosition
      ensures pending == if |old(pending)| == 0 then [] else old(pending)[1..]
    {
      res := NextResult();
      if res.success {
        currentPosition := res.recordPostPosition;
      } else if |pending| > 0 {
        currentPosition := pending[0].stopPosition;
      }
      if |pending| > 0 {
        pending := pending[1..];
      }
    }
  }

  class TFChunkChaser {
    const checkpoint: Checkpoint
    const reader: ChunkReader

    /** The reader starts at the chaser checkpoint's durable position. */
    constructor (chaserCheckpoint: Checkpoint, pending: seq<ReadStep>)
      ensures checkpoint == chaserCheckpoint && fresh(reader)
      ensures reader.currentPosition == chaserCheckpoint.Read() && reader.pending == pending
    {
      checkpoint := chaserCheckpoint;
      reader := new ChunkReader(chaserCheckpoint.Read(), pending);
    }

    /** `Open`: nothing to do. */
    method Open()
      ensures unchanged(checkpoint, reader)
    {
    }

    /** `TryReadNext()`: the reader's result, unchanged; the checkpoint is
        written with the post position of the record read, or with the
        position the failed read left the reader at. */
    method TryReadNextResult() returns (res: SeqReadResult)
      modifies checkpoint, reader
      ensures res == old(reader.NextResult())
      ensures res.success ==> checkpoint.written == res.recordPostPosition
      ensures !res.success ==> checkpoint.written == reader.currentPosition
      ensures checkpoint.written == reader.currentPosition == old(reader.NextPosition())
      ensures checkpoint.flushed == old(checkpoint.flushed) && checkpoint.flushCount == old(checkpoint.flushCount)
      ensures reader.pending == if |old(reader.pending)| == 0 then [] else old(reader.pending)[1..]
    {
      res := reader.TryReadNext();
      if res.success {
        checkpoint.Write(res.recordPostPosition);
      } else {
        checkpoint.Write(reader.currentPosition);
      }
    }

    /** `TryReadNext(out record)`: the success flag and the record of the
        same read. */
    method TryReadNext() returns (success: bool, record: Option<LogRecord>)
      modifies checkpoint, reader
      ensures success == old(reader.NextResult()).success && record == old(reader.NextResult()).logRecord
      ensures checkpoint.written == reader.currentPosition == old(reader.NextPosition())
      ensures success ==> checkpoint.written == old(reader.NextResult()).recordPostPosition
      ensures checkpoint.flushed == old(checkpoint.flushed) && checkpoint.flushCount == old(checkpoint.flushCount)
      ensures reader.pending == if |old(reader.pending)| == 0 then [] else old(reader.pending)[1..]
    {
      var res := TryReadNextResult();
      record := res.logRecord;
      success := res.success;
    }

    /** `Flush`: makes the last written position durable. */
    method Flush()
      modifies checkpoint
      ensures checkpoint.flushed == checkpoint.written == old(checkpoint.written)
      ensures checkpoint.flushCount == old(checkpoint.flushCount) + 1
    {
      checkpoint.Flush();
    }

    /** `Close`: exactly one flush. */
    method Close()
      modifies checkpoint
      ensures checkpoint.flushed == checkpoint.written == old(checkpoint.written)
      ensures checkpoint.flushCount == old(checkpoint.flushCount) + 1
    {
      Flush();
    }

    /** `Dispose`: closes, so again exactly one flush. */
    method Dispose()
      modifies checkpoint
      ensures checkpoint.flushed == checkpoint.written == old(checkpoint.written)
      ensures checkpoint.flushCount == old(checkpoint.flushCount) + 1
    {
      Close();
    }
  }
}
