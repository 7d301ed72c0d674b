/** The storage chaser: it replays the records of the transaction log as they
    become durable, buffers the prepares of the transaction in progress, hands
    them to the index committer when the transaction ends, acknowledges
    commits and prepares, caches epochs, and flushes the chaser checkpoint
    under an adaptive delay. */
module StorageChasers {
  import opened Wrappers
  import opened Primitives
  import opened LogRecords
  import EpochRecords
  import ChunkChaser

  /** Everything the chaser hands on, in the order it does so: the calls to
      the index committer and to the epoch manager, and the messages it
      publishes on the leader bus. */
  datatype ChaserOutput =
    | AddPendingPrepare(prepares: seq<PrepareLogRecord>, postPosition: int64)
    | AddPendingCommit(commit: CommitLogRecord, postPosition: int64)
    | CommitAck(correlationId: Guid, logPosition: int64, transactionPosition: int64,
                firstEventNumber: int64, lastEventNumber: int64)
    | PrepareAck(correlationId: Guid, logPosition: int64, flags: set<PrepareFlag>)
    | TfEofAtNonCommitRecord
    | CacheEpoch(epoch: EpochRecords.EpochRecord)

  /** The pending-transaction buffer and the commits-after-EOF flag. */
  datatype ChaserState = ChaserState(transaction: seq<PrepareLogRecord>, commitsAfterEof: bool)

  datatype Step = Step(state: ChaserState, outputs: seq<ChaserOutput>)

  datatype ChaseError =
    /** The record-type switch fell through to its default case. */
    | ArgumentOutOfRange
    /** A successful read without a record. */
    | NullReference

  /** `GetCommitLastEventNumber` of the index committer, whose logic is not
      part of this model; `None` stands for `EventNumber.Invalid`. */
  type LastEventNumberOf = CommitLogRecord -> Option<int64>

  /** The prepares handed to the index committer by a sequence of outputs. */
  function Flushed(outs: seq<ChaserOutput>): seq<PrepareLogRecord> {
    if |outs| == 0 then []
    else (if outs[0].AddPendingPrepare? then outs[0].prepares else []) + Flushed(outs[1..])
  }

  lemma {:induction false} FlushedAppend(a: seq<ChaserOutput>, b: seq<ChaserOutput>)
    ensures Flushed(a + b) == Flushed(a) + Flushed(b)
  {
    if |a| > 0 {
      assert (a + b)[0] == a[0];
      assert (a + b)[1..] == a[1..] + b;
      FlushedAppend(a[1..], b);
      var head := if a[0].AddPendingPrepare? then a[0].prepares else [];
      calc {
        Flushed(a + b);
        head + Flushed(a[1..] + b);
        head + (Flushed(a[1..]) + Flushed(b));
        (head + Flushed(a[1..])) + Flushed(b);
        Flushed(a) + Flushed(b);
      }
    } else {
      assert a + b == b;
    }
  }

  /** How many commit acknowledgments, and how many prepare acknowledgments,
      a sequence of outputs holds. */
  function CommitAcks(outs: seq<ChaserOutput>): nat {
    if |outs| == 0 then 0 else (if outs[0].CommitAck? then 1 else 0) + CommitAcks(outs[1..])
  }

  function PrepareAcks(outs: seq<ChaserOutput>): nat {
    if |outs| == 0 then 0 else (if outs[0].PrepareAck? then 1 else 0) + PrepareAcks(outs[1..])
  }

  lemma {:induction false} AcksAppend(a: seq<ChaserOutput>, b: seq<ChaserOutput>)
    ensures CommitAcks(a + b) == CommitAcks(a) + CommitAcks(b)
    ensures PrepareAcks(a + b) == PrepareAcks(a) + PrepareAcks(b)
  {
    if |a| > 0 {
      assert (a + b)[0] == a[0];
      assert (a + b)[1..] == a[1..] + b;
      AcksAppend(a[1..], b);
      assert CommitAcks(a + b) == (if a[0].CommitAck? then 1 else 0) + CommitAcks(a[1..] + b);
      assert PrepareAcks(a + b) == (if a[0].PrepareAck? then 1 else 0) + PrepareAcks(a[1..] + b);
    } else {
      assert a + b == b;
    }
  }

  /** `CommitPendingTransaction`: a non-empty buffer is handed over whole,
      with the given post position, in one call; an empty one not at all. */
  function CommitPending(transaction: seq<PrepareLogRecord>, postPosition: int64): (outs: seq<ChaserOutput>)
    ensures Flushed(outs) == transaction
    ensures CommitAcks(outs) == 0 && PrepareAcks(outs) == 0
    ensures |outs| <= 1 && (|outs| == 0 <==> |transaction| == 0)
    ensures forall o :: o in outs ==> o.AddPendingPrepare? && o.postPosition == postPosition
  {
    var outs := if |transaction| > 0 then [AddPendingPrepare(transaction, postPosition)] else [];
    assert outs == [] || outs[1..] == [];
    outs
  }

  /** The event numbers a committed transaction-end prepare acknowledges,
      in unchecked `long` arithmetic. */
  function EventNumbers(record: PrepareLogRecord): (int64, int64) {
    if Data in record.flags then
      (WrapToInt64(record.expectedVersion + 1 - record.transactionOffset), WrapToInt64(record.expectedVersion + 1))
    else
      (WrapToInt64(record.expectedVersion + 1), record.expectedVersion)
  }

  /** A transaction acknowledges one event more than its last prepare's offset
      when that prepare carries data, and none when it does not. */
  lemma EventNumbersCount(record: PrepareLogRecord)
    requires Int64Min <= record.expectedVersion + 1 - record.transactionOffset <= Int64Max
    requires record.expectedVersion < Int64Max
    ensures var (first, last) := EventNumbers(record);
      last - first + 1 == if Data in record.flags then record.transactionOffset + 1 else 0
  {
  }

  /** What processing one record does to the buffer, and what it hands on. */
  datatype Effect = Effect(transaction: seq<PrepareLogRecord>, outputs: seq<ChaserOutput>)

  /** The start of `ProcessPrepareRecord`: a prepare of another transaction
      than the buffered one first hands the buffer over, with this prepare's
      post position. */
  function FlushStale(transaction: seq<PrepareLogRecord>, record: PrepareLogRecord, postPosition: int64): Effect {
    if |transaction| > 0 && transaction[0].transactionPosition != record.transactionPosition
    then Effect([], CommitPending(transaction, postPosition))
    else Effect(transaction, [])
  }

  /** The rest of `ProcessPrepareRecord`. */
  function PrepareAfterFlush(transaction: seq<PrepareLogRecord>, record: PrepareLogRecord, postPosition: int64): Effect {
    if IsCommitted in record.flags then
      var tx := if HasAnyOf(record.flags, {Data, StreamDelete}) then transaction + [record] else transaction;
      if TransactionEnd in record.flags then
        var (first, last) := EventNumbers(record);
        Effect([], CommitPending(tx, postPosition)
          + [CommitAck(record.correlationId, record.logPosition, record.transactionPosition, first, last)])
      else
        Effect(tx, [])
    else if HasAnyOf(record.flags, {TransactionBegin, TransactionEnd, Data}) then
      Effect(transaction, [PrepareAck(record.correlationId, record.logPosition, record.flags)])
    else
      Effect(transaction, [])
  }

  /** `ProcessPrepareRecord`. */
  function ProcessPrepare(transaction: seq<PrepareLogRecord>, record: PrepareLogRecord, postPosition: int64): Effect {
    var e1 := FlushStale(transaction, record, postPosition);
    var e2 := PrepareAfterFlush(e1.transaction, record, postPosition);
    Effect(e2.transaction, e1.outputs + e2.outputs)
  }

  /** `ProcessCommitRecord`: the buffer is handed over, then the commit, then
      the acknowledgment, whose last event number falls back to one before
      the first when the committer reports none. */
  function ProcessCommit(transaction: seq<PrepareLogRecord>, record: CommitLogRecord, postPosition: int64,
                         lastEventNumberOf: LastEventNumberOf): Effect {
    var last := match lastEventNumberOf(record)
      case None => WrapToInt64(record.firstEventNumber - 1)
      case Some(n) => n;
    Effect([], CommitPending(transaction, postPosition)
      + [AddPendingCommit(record, postPosition),
         CommitAck(record.correlationId, record.logPosition, record.transactionPosition, record.firstEventNumber, last)])
  }

  /** `ProcessSystemRecord`: the buffer is handed over at the record's own
      position, then an epoch is cached. */
  function ProcessSystem(transaction: seq<PrepareLogRecord>, logPosition: int64, body: SystemBody): Effect {
    Effect([], CommitPending(transaction, logPosition) + (if body.EpochBody? then [CacheEpoch(body.epoch)] else []))
  }

  /** The switch of `ProcessLogRecord`, before the end-of-file check. */
  function Dispatch(st: ChaserState, record: LogRecord, eof: bool, postPosition: int64,
                    lastEventNumberOf: LastEventNumberOf): Result<Step, ChaseError> {
    match record
    case Prepare(p) =>
      var e := ProcessPrepare(st.transaction, p, postPosition);
      Ok(Step(ChaserState(e.transaction, st.commitsAfterEof), e.outputs))
    case Commit(c) =>
      var e := ProcessCommit(st.transaction, c, postPosition, lastEventNumberOf);
      Ok(Step(ChaserState(e.transaction, !eof), e.outputs))
    case System(pos, body) =>
      var e := ProcessSystem(st.transaction, pos, body);
      Ok(Step(ChaserState(e.transaction, st.commitsAfterEof), e.outputs))
    case Partition(_) => Ok(Step(st, []))
    case PartitionType(_) => Ok(Step(st, []))
    case Unknown(_, _) => Err(ArgumentOutOfRange)
  }

  /** `ProcessLogRecord` on a record read successfully. */
  function ProcessRecord(st: ChaserState, record: LogRecord, eof: bool, postPosition: int64,
                         lastEventNumberOf: LastEventNumberOf): Result<Step, ChaseError> {
    match Dispatch(st, record, eof, postPosition, lastEventNumberOf)
    case Err(e) => Err(e)
    case Ok(step) =>
      if eof && !record.Commit? && step.state.commitsAfterEof then
        Ok(Step(step.state.(commitsAfterEof := false), step.outputs + [TfEofAtNonCommitRecord]))
      else Ok(step)
  }

  /** The buffer holds committed prepares with data or a deletion, all of one
      transaction. */
  ghost predicate BufferInvariant(transaction: seq<PrepareLogRecord>) {
    forall i :: 0 <= i < |transaction| ==>
      && transaction[i].transactionPosition == transaction[0].transactionPosition
      && IsCommitted in transaction[i].flags
      && HasAnyOf(transaction[i].flags, {Data, StreamDelete})
  }

  /** The prepare a record adds to the chain of buffered prepares, if any. */
  function Buffered(record: LogRecord): seq<PrepareLogRecord> {
    if record.Prepare? && IsCommitted in record.prepare.flags && HasAnyOf(record.prepare.flags, {Data, StreamDelete})
    then [record.prepare] else []
  }

  /** Buffer `before`, with `added` appended, is what `e` hands over followed
      by what it keeps buffered. */
  ghost predicate Conserving(before: seq<PrepareLogRecord>, added: seq<PrepareLogRecord>, e: Effect) {
    before + added == Flushed(e.outputs) + e.transaction
  }

  lemma ConservingThen(before: seq<PrepareLogRecord>, added: seq<PrepareLogRecord>, e1: Effect, e2: Effect)
    requires Conserving(before, [], e1) && Conserving(e1.transaction, added, e2)
    ensures Conserving(before, added, Effect(e2.transaction, e1.outputs + e2.outputs))
  {
    FlushedAppend(e1.outputs, e2.outputs);
    assert before + [] == before;
    calc {
      before + added;
      (Flushed(e1.outputs) + e1.transaction) + added;
      Flushed(e1.outputs) + (e1.transaction + added);
      Flushed(e1.outputs) + (Flushed(e2.outputs) + e2.transaction);
      Flushed(e1.outputs + e2.outputs) + e2.transaction;
    }
  }

  lemma FlushStaleConserves(transaction: seq<PrepareLogRecord>, record: PrepareLogRecord, postPosition: int64)
    requires BufferInvariant(transaction)
    ensures var e := FlushStale(transaction, record, postPosition);
      && Conserving(transaction, [], e)
      && BufferInvariant(e.transaction)
      && (e.transaction == [] || e.transaction[0].transactionPosition == record.transactionPosition)
  {
    var e := FlushStale(transaction, record, postPosition);
    assert transaction + [] == transaction;
    if e.transaction == [] {
      assert Flushed(e.outputs) + e.transaction == Flushed(e.outputs);
    }
  }

  lemma AfterFlushConserves(transaction: seq<PrepareLogRecord>, record: PrepareLogRecord, postPosition: int64)
    requires BufferInvariant(transaction)
    requires transaction == [] || transaction[0].transactionPosition == record.transactionPosition
    ensures var e := PrepareAfterFlush(transaction, record, postPosition);
      BufferInvariant(e.transaction) && Conserving(transaction, Buffered(Prepare(record)), e)
  {
    var e := PrepareAfterFlush(transaction, record, postPosition);
    if IsCommitted in record.flags {
      var tx := if HasAnyOf(record.flags, {Data, StreamDelete}) then transaction + [record] else transaction;
      assert transaction + Buffered(Prepare(record)) == tx;
      if TransactionEnd in record.flags {
        var (first, last) := EventNumbers(record);
        var ack := CommitAck(record.correlationId, record.logPosition, record.transactionPosition, first, last);
        FlushedAppend(CommitPending(tx, postPosition), [ack]);
        assert Flushed([ack]) == [];
      } else {
        assert Flushed(e.outputs) == [];
      }
    } else {
      assert Buffered(Prepare(record)) == [];
      assert Flushed(e.outputs) == [];
    }
  }

  lemma PrepareConserves(transaction: seq<PrepareLogRecord>, record: PrepareLogRecord, postPosition: int64)
    requires BufferInvariant(transaction)
    ensures BufferInvariant(ProcessPrepare(transaction, record, postPosition).transaction)
    ensures Conserving(transaction, Buffered(Prepare(record)), ProcessPrepare(transaction, record, postPosition))
  {
    var e1 := FlushStale(transaction, record, postPosition);
    FlushStaleConserves(transaction, record, postPosition);
    var e2 := PrepareAfterFlush(e1.transaction, record, postPosition);
    AfterFlushConserves(e1.transaction, record, postPosition);
    ConservingThen(transaction, Buffered(Prepare(record)), e1, e2);
  }

  lemma CommitConserves(transaction: seq<PrepareLogRecord>, record: CommitLogRecord, postPosition: int64,
                        lastEventNumberOf: LastEventNumberOf)
    ensures Conserving(transaction, [], ProcessCommit(transaction, record, postPosition, lastEventNumberOf))
  {
    var e := ProcessCommit(transaction, record, postPosition, lastEventNumberOf);
    var tail := e.outputs[|CommitPending(transaction, postPosition)|..];
    assert e.outputs == CommitPending(transaction, postPosition) + tail;
    FlushedAppend(CommitPending(transaction, postPosition), tail);
    assert Flushed(tail) == [] by {
      assert tail[1..][1..] == [];
    }
  }

  lemma SystemConserves(transaction: seq<PrepareLogRecord>, logPosition: int64, body: SystemBody)
    ensures Conserving(transaction, [], ProcessSystem(transaction, logPosition, body))
  {
    var tail := if body.EpochBody? then [CacheEpoch(body.epoch)] else [];
    FlushedAppend(CommitPending(transaction, logPosition), tail);
    assert Flushed(tail) == [];
  }

  /** One record keeps the buffer invariant, loses no buffered prepare and
      invents none: what was buffered, followed by what the record adds, is
      what was handed over followed by what stays buffered. */
  lemma ProcessRecordConserves(st: ChaserState, record: LogRecord, eof: bool, postPosition: int64,
                               lastEventNumberOf: LastEventNumberOf)
    requires BufferInvariant(st.transaction)
    ensures var r := ProcessRecord(st, record, eof, postPosition, lastEventNumberOf);
      r.Ok? ==>
        && BufferInvariant(r.value.state.transaction)
        && st.transaction + Buffered(record) == Flushed(r.value.outputs) + r.value.state.transaction
  {
    var d := Dispatch(st, record, eof, postPosition, lastEventNumberOf);
    if d.Ok? {
      match record {
        case Prepare(p) => PrepareConserves(st.transaction, p, postPosition);
        case Commit(c) => CommitConserves(st.transaction, c, postPosition, lastEventNumberOf);
        case System(pos, body) => SystemConserves(st.transaction, pos, body);
        case Partition(_) =>
        case PartitionType(_) =>
      }
      assert st.transaction + Buffered(record) == Flushed(d.value.outputs) + d.value.state.transaction;
      FlushedAppend(d.value.outputs, [TfEofAtNonCommitRecord]);
    }
  }

  /** Replaying a sequence of read results as the chase loop does: a failed
      read changes nothing, a successful one is processed, and an exception
      ends the replay. */
  function Replay(st: ChaserState, results: seq<SeqReadResult>, lastEventNumberOf: LastEventNumberOf): Result<Step, ChaseError>
    decreases |results|
  {
    if |results| == 0 then Ok(Step(st, []))
    else
      var res := results[0];
      if !res.success then Replay(st, results[1..], lastEventNumberOf)
      else if res.logRecord.None? then Err(NullReference)
      else match ProcessRecord(st, res.logRecord.value, res.eof, res.recordPostPosition, lastEventNumberOf)
        case Err(e) => Err(e)
        case Ok(step) =>
          match Replay(step.state, results[1..], lastEventNumberOf)
          case Err(e) => Err(e)
          case Ok(rest) => Ok(Step(rest.state, step.outputs + rest.outputs))
  }

  /** The buffered prepares of the records a sequence of read results holds. */
  function BufferedAll(results: seq<SeqReadResult>): seq<PrepareLogRecord> {
    if |results| == 0 then []
    else
      (if results[0].success && results[0].logRecord.Some? then Buffered(results[0].logRecord.value) else [])
      + BufferedAll(results[1..])
  }

  /** Over any replay, every committed prepare with data or a deletion reaches
      the index committer exactly once and in log order, unless it is still
      buffered at the end. */
  lemma {:induction false} ReplayConserves(st: ChaserState, results: seq<SeqReadResult>, lastEventNumberOf: LastEventNumberOf)
    requires BufferInvariant(st.transaction)
    ensures var r := Replay(st, results, lastEventNumberOf);
      r.Ok? ==>
        && BufferInvariant(r.value.state.transaction)
        && st.transaction + BufferedAll(results) == Flushed(r.value.outputs) + r.value.state.transaction
    decreases |results|
  {
    if |results| > 0 {
      var res := results[0];
      if !res.success {
        assert BufferedAll(results) == BufferedAll(results[1..]);
        ReplayConserves(st, results[1..], lastEventNumberOf);
      } else if res.logRecord.Some? {
        var record := res.logRecord.value;
        var first := ProcessRecord(st, record, res.eof, res.recordPostPosition, lastEventNumberOf);
        if first.Ok? {
          var step := first.value;
          ProcessRecordConserves(st, record, res.eof, res.recordPostPosition, lastEventNumberOf);
          ReplayConserves(step.state, results[1..], lastEventNumberOf);
          var restR := Replay(step.state, results[1..], lastEventNumberOf);
          if restR.Ok? {
            var rest := restR.value;
            FlushedAppend(step.outputs, rest.outputs);
            assert BufferedAll(results) == Buffered(record) + BufferedAll(results[1..]);
            ConcatSteps(st.transaction, Buffered(record), BufferedAll(results[1..]),
              Flushed(step.outputs), step.state.transaction, Flushed(rest.outputs), rest.state.transaction);
          }
        }
      }
    }
  }

  lemma ConcatSteps<T>(t0: seq<T>, b: seq<T>, bs: seq<T>, f1: seq<T>, t1: seq<T>, f2: seq<T>, t2: seq<T>)
    requires t0 + b == f1 + t1 && t1 + bs == f2 + t2
    ensures t0 + (b + bs) == (f1 + f2) + t2
  {
    calc {
      t0 + (b + bs);
      (t0 + b) + bs;
      (f1 + t1) + bs;
      f1 + (t1 + bs);
      f1 + (f2 + t2);
    }
  }

  /** How many acknowledgments of each kind one prepare receives. */
  function ExpectedCommitAcks(record: LogRecord): nat {
    if record.Commit? || (record.Prepare? && IsCommitted in record.prepare.flags && TransactionEnd in record.prepare.flags)
    then 1 else 0
  }

  function ExpectedPrepareAcks(record: LogRecord): nat {
    if record.Prepare? && IsCommitted !in record.prepare.flags
       && HasAnyOf(record.prepare.flags, {TransactionBegin, TransactionEnd, Data})
    then 1 else 0
  }

  lemma PrepareAcksCount(transaction: seq<PrepareLogRecord>, record: PrepareLogRecord, postPosition: int64)
    ensures var outs := ProcessPrepare(transaction, record, postPosition).outputs;
      && CommitAcks(outs) == ExpectedCommitAcks(Prepare(record))
      && PrepareAcks(outs) == ExpectedPrepareAcks(Prepare(record))
      && TfEofAtNonCommitRecord !in outs
  {
    var e1 := FlushStale(transaction, record, postPosition);
    var e2 := PrepareAfterFlush(e1.transaction, record, postPosition);
    AcksAppend(e1.outputs, e2.outputs);
    if IsCommitted in record.flags && TransactionEnd in record.flags {
      var tx := if HasAnyOf(record.flags, {Data, StreamDelete}) then e1.transaction + [record] else e1.transaction;
      var (first, last) := EventNumbers(record);
      var ack := CommitAck(record.correlationId, record.logPosition, record.transactionPosition, first, last);
      AcksAppend(CommitPending(tx, postPosition), [ack]);
    }
  }

  lemma CommitAcksCount(transaction: seq<PrepareLogRecord>, record: CommitLogRecord, postPosition: int64,
                        lastEventNumberOf: LastEventNumberOf)
    ensures var outs := ProcessCommit(transaction, record, postPosition, lastEventNumberOf).outputs;
      CommitAcks(outs) == 1 && PrepareAcks(outs) == 0
  {
    var outs := ProcessCommit(transaction, record, postPosition, lastEventNumberOf).outputs;
    var tail := outs[|CommitPending(transaction, postPosition)|..];
    assert outs == CommitPending(transaction, postPosition) + tail;
    AcksAppend(CommitPending(transaction, postPosition), tail);
    assert tail[1..][1..] == [];
  }

  lemma SystemAcksCount(transaction: seq<PrepareLogRecord>, logPosition: int64, body: SystemBody)
    ensures var outs := ProcessSystem(transaction, logPosition, body).outputs;
      CommitAcks(outs) == 0 && PrepareAcks(outs) == 0 && TfEofAtNonCommitRecord !in outs
  {
    AcksAppend(CommitPending(transaction, logPosition), if body.EpochBody? then [CacheEpoch(body.epoch)] else []);
  }

  /** The acknowledgments of one record: a committed transaction-end prepare
      and a commit get exactly one commit acknowledgment; an uncommitted
      prepare gets exactly one prepare acknowledgment when it begins, ends or
      carries data, and none otherwise; nothing else is acknowledged. */
  lemma ProcessRecordAcks(st: ChaserState, record: LogRecord, eof: bool, postPosition: int64,
                          lastEventNumberOf: LastEventNumberOf)
    ensures var r := ProcessRecord(st, record, eof, postPosition, lastEventNumberOf);
      r.Ok? ==>
        && CommitAcks(r.value.outputs) == ExpectedCommitAcks(record)
        && PrepareAcks(r.value.outputs) == ExpectedPrepareAcks(record)
  {
    var d := Dispatch(st, record, eof, postPosition, lastEventNumberOf);
    if d.Ok? {
      match record {
        case Prepare(p) => PrepareAcksCount(st.transaction, p, postPosition);
        case Commit(c) => CommitAcksCount(st.transaction, c, postPosition, lastEventNumberOf);
        case System(pos, body) => SystemAcksCount(st.transaction, pos, body);
        case Partition(_) =>
        case PartitionType(_) =>
      }
      AcksAppend(d.value.outputs, [TfEofAtNonCommitRecord]);
    }
  }

  /** The end-of-file marker: a commit sets the flag exactly when it was not
      read at the end of the log; a non-commit record read at the end of the
      log while the flag is set publishes the marker once and clears the
      flag; any other record leaves flag and marker alone. Only a record of
      unknown type is refused. */
  lemma ProcessRecordEofMarker(st: ChaserState, record: LogRecord, eof: bool, postPosition: int64,
                               lastEventNumberOf: LastEventNumberOf)
    ensures var r := ProcessRecord(st, record, eof, postPosition, lastEventNumberOf);
      && (r.Err? <==> record.Unknown?)
      && (r.Err? ==> r.error == ArgumentOutOfRange)
      && (r.Ok? && record.Commit? ==> r.value.state.commitsAfterEof == !eof)
      && (r.Ok? && !record.Commit? && eof && st.commitsAfterEof ==>
            !r.value.state.commitsAfterEof && r.value.outputs[|r.value.outputs| - 1] == TfEofAtNonCommitRecord)
      && (r.Ok? && !record.Commit? && !(eof && st.commitsAfterEof) ==>
            r.value.state.commitsAfterEof == st.commitsAfterEof && TfEofAtNonCommitRecord !in r.value.outputs)
  {
    match record
    case Prepare(p) => PrepareAcksCount(st.transaction, p, postPosition);
    case System(pos, body) => SystemAcksCount(st.transaction, pos, body);
    case _ =>
  }

  /** A commit record acknowledges the commit's first event number, and as
      its last event number the committer's, or one before the first when
      the committer has none; the commit is handed to the committer with the
      record's post position, after the buffered prepares. */
  lemma ProcessCommitAck(transaction: seq<PrepareLogRecord>, record: CommitLogRecord, postPosition: int64,
                         lastEventNumberOf: LastEventNumberOf)
    requires record.firstEventNumber > Int64Min
    ensures var e := ProcessCommit(transaction, record, postPosition, lastEventNumberOf);
      var n := |e.outputs|;
      && e.transaction == []
      && n >= 2 && e.outputs[n - 2] == AddPendingCommit(record, postPosition)
      && e.outputs[n - 1].CommitAck?
      && e.outputs[n - 1].firstEventNumber == record.firstEventNumber
      && e.outputs[n - 1].lastEventNumber
         == (if lastEventNumberOf(record).None? then record.firstEventNumber - 1 else lastEventNumberOf(record).value)
      && e.outputs[..n - 2] == CommitPending(transaction, postPosition)
  {
  }

  /** The flush decision of the chase loop: always after a failed read,
      otherwise once the time since the last flush reaches the last flush's
      duration plus the minimum delay (in unchecked `long` arithmetic). */
  function ShouldFlush(readSucceeded: bool, start: int64, lastFlush: int64, flushDelay: int64, minFlushDelay: int32): bool {
    !readSucceeded || WrapToInt64(start - lastFlush) >= WrapToInt64(flushDelay + minFlushDelay)
  }

  /** Away from overflow, the decision is the plain comparison of elapsed time
      with the adaptive delay. */
  lemma ShouldFlushPlain(readSucceeded: bool, start: int64, lastFlush: int64, flushDelay: int64, minFlushDelay: int32)
    requires Int64Min <= start - lastFlush <= Int64Max && Int64Min <= flushDelay + minFlushDelay <= Int64Max
    ensures ShouldFlush(readSucceeded, start, lastFlush, flushDelay, minFlushDelay)
      <==> !readSucceeded || start - lastFlush >= flushDelay + minFlushDelay
  {
  }

  class StorageChaser {
    const chaser: ChunkChaser.TFChunkChaser
    const lastEventNumberOf: LastEventNumberOf
    /** `2 * TicksPerMs`. */
    const minFlushDelay: int32
    var transaction: seq<PrepareLogRecord>
    var commitsAfterEof: bool
    var flushDelay: int64
    var lastFlush: int64
    /** What the chaser handed on so far. */
    var output: seq<ChaserOutput>

    function State(): ChaserState
      reads this
    {
      ChaserState(transaction, commitsAfterEof)
    }

    /** `now` is the stopwatch reading at construction; `ticksPerMs` is
        `Stopwatch.Frequency / 1000`. */
    constructor (chaser: ChunkChaser.TFChunkChaser, lastEventNumberOf: LastEventNumberOf, ticksPerMs: int32, now: int64)
      ensures this.chaser == chaser && this.lastEventNumberOf == lastEventNumberOf
      ensures minFlushDelay == WrapToInt32(2 * ticksPerMs)
      ensures transaction == [] && !commitsAfterEof && output == []
      ensures flushDelay == 0 && lastFlush == now
    {
      this.chaser := chaser;
      this.lastEventNumberOf := lastEventNumberOf;
      minFlushDelay := WrapToInt32(2 * ticksPerMs);
      transaction := [];
      commitsAfterEof := false;
      output := [];
      flushDelay := 0;
      lastFlush := now;
    }

    method CommitPendingTransaction(postPosition: int64)
      modifies this
      ensures transaction == [] && output == old(output) + CommitPending(old(transaction), postPosition)
      ensures commitsAfterEof == old(commitsAfterEof) && flushDelay == old(flushDelay) && lastFlush == old(lastFlush)
    {
      if |transaction| > 0 {
        output := output + [AddPendingPrepare(transaction, postPosition)];
        transaction := [];
      }
    }

    method ProcessPrepareRecord(record: PrepareLogRecord, postPosition: int64)
      modifies this
      ensures var e := ProcessPrepare(old(transaction), record, postPosition);
        transaction == e.transaction && output == old(output) + e.outputs
      ensures commitsAfterEof == old(commitsAfterEof) && flushDelay == old(flushDelay) && lastFlush == old(lastFlush)
    {
      ghost var e1 := FlushStale(transaction, record, postPosition);
      ghost var output0 := output;
      if |transaction| > 0 && transaction[0].transactionPosition != record.transactionPosition {
        CommitPendingTransaction(postPosition);
      }
      assert transaction == e1.transaction && output == output0 + e1.outputs;
      ProcessPrepareAfterFlush(record, postPosition);
      ghost var e2 := PrepareAfterFlush(e1.transaction, record, postPosition);
      assert output == output0 + (e1.outputs + e2.outputs);
    }

    /** The part of `ProcessPrepareRecord` after a stale buffer was handed over. */
    method ProcessPrepareAfterFlush(record: PrepareLogRecord, postPosition: int64)
      modifies this
      ensures var e := PrepareAfterFlush(old(transaction), record, postPosition);
        transaction == e.transaction && output == old(output) + e.outputs
      ensures commitsAfterEof == old(commitsAfterEof) && flushDelay == old(flushDelay) && lastFlush == old(lastFlush)
    {
      if IsCommitted in record.flags {
        if HasAnyOf(record.flags, {Data, StreamDelete}) {
          transaction := transaction + [record];
        }
        if TransactionEnd in record.flags {
          CommitPendingTransaction(postPosition);
          var firstEventNumber, lastEventNumber;
          if Data in record.flags {
            firstEventNumber := WrapToInt64(record.expectedVersion + 1 - record.transactionOffset);
            lastEventNumber := WrapToInt64(record.expectedVersion + 1);
          } else {
            firstEventNumber := WrapToInt64(record.expectedVersion + 1);
            lastEventNumber := record.expectedVersion;
          }
          output := output + [CommitAck(record.correlationId, record.logPosition, record.transactionPosition,
            firstEventNumber, lastEventNumber)];
        }
      } else if HasAnyOf(record.flags, {TransactionBegin, TransactionEnd, Data}) {
        output := output + [PrepareAck(record.correlationId, record.logPosition, record.flags)];
      }
    }

    method ProcessCommitRecord(record: CommitLogRecord, postPosition: int64)
      modifies this
      ensures var e := ProcessCommit(old(transaction), record, postPosition, lastEventNumberOf);
        transaction == e.transaction && output == old(output) + e.outputs
      ensures commitsAfterEof == old(commitsAfterEof) && flushDelay == old(flushDelay) && lastFlush == old(lastFlush)
    {
      CommitPendingTransaction(postPosition);
      var firstEventNumber := record.firstEventNumber;
      var lastEventNumber := lastEventNumberOf(record);
      output := output + [AddPendingCommit(record, postPosition)];
      var last := if lastEventNumber.None? then WrapToInt64(record.firstEventNumber - 1) else lastEventNumber.value;
      output := output + [CommitAck(record.correlationId, record.logPosition, record.transactionPosition,
        firstEventNumber, last)];
    }

    method ProcessSystemRecord(logPosition: int64, body: SystemBody)
      modifies this
      ensures var e := ProcessSystem(old(transaction), logPosition, body);
        transaction == e.transaction && output == old(output) + e.outputs
      ensures commitsAfterEof == old(commitsAfterEof) && flushDelay == old(flushDelay) && lastFlush == old(lastFlush)
    {
      CommitPendingTransaction(logPosition);
      if body.EpochBody? {
        output := output + [CacheEpoch(body.epoch)];
      }
    }

    /** `ProcessLogRecord`, on the result of a successful read. */
    method ProcessLogRecord(result: SeqReadResult) returns (r: Outcome<ChaseError>)
      modifies this
      ensures result.logRecord.None? ==> r == Fail(NullReference) && unchanged(this)
      ensures result.logRecord.Some? ==>
        var step := ProcessRecord(old(State()), result.logRecord.value, result.eof, result.recordPostPosition, lastEventNumberOf);
        && (r.Fail? <==> step.Err?)
        && (step.Err? ==> r.error == step.error && unchanged(this))
        && (step.Ok? ==> State() == step.value.state && output == old(output) + step.value.outputs)
      ensures flushDelay == old(flushDelay) && lastFlush == old(lastFlush)
    {
      if result.logRecord.None? {
        return Fail(NullReference);
      }
      var record := result.logRecord.value;
      match record {
        case Prepare(p) =>
          ProcessPrepareRecord(p, result.recordPostPosition);
        case Commit(c) =>
          commitsAfterEof := !result.eof;
          ProcessCommitRecord(c, result.recordPostPosition);
        case System(pos, body) =>
          ProcessSystemRecord(pos, body);
        case Partition(_) =>
        case PartitionType(_) =>
        case Unknown(_, _) =>
          return Fail(ArgumentOutOfRange);
      }
      if result.eof && !record.Commit? && commitsAfterEof {
        commitsAfterEof := false;
        output := output + [TfEofAtNonCommitRecord];
      }
      return Pass;
    }

    /** One iteration of the chase loop, `start` and `end` being the
        stopwatch readings before and after the flush: read, process a record
        read, then flush the chaser checkpoint when due. */
    method ChaserIteration(start: int64, end: int64) returns (r: Outcome<ChaseError>)
      modifies this, chaser.checkpoint, chaser.reader
      ensures var res := old(chaser.reader.NextResult());
        var step := if res.success && res.logRecord.Some?
          then ProcessRecord(old(State()), res.logRecord.value, res.eof, res.recordPostPosition, lastEventNumberOf)
          else Ok(Step(old(State()), []));
        var failed := res.success && (res.logRecord.None? || step.Err?);
        var flush := !failed && ShouldFlush(res.success, start, old(lastFlush), old(flushDelay), minFlushDelay);
        && (r.Fail? <==> failed)
        && (!failed ==> State() == step.value.state && output == old(output) + step.value.outputs)
        && (flush ==>
              && chaser.checkpoint.flushCount == old(chaser.checkpoint.flushCount) + 1
              && chaser.checkpoint.flushed == chaser.checkpoint.written
              && flushDelay == WrapToInt64(end - start) && lastFlush == end)
        && (!flush ==>
              && chaser.checkpoint.flushCount == old(chaser.checkpoint.flushCount)
              && flushDelay == old(flushDelay) && lastFlush == old(lastFlush))
      ensures chaser.checkpoint.written == (if old(chaser.reader.NextResult()).success
        then old(chaser.reader.NextResult()).recordPostPosition else chaser.reader.currentPosition)
      ensures chaser.reader.currentPosition == old(chaser.reader.NextPosition())
    {
      var result := chaser.TryReadNextResult();
      if result.success {
        var outcome := ProcessLogRecord(result);
        if outcome.Fail? {
          return outcome;
        }
      }
      if ShouldFlush(result.success, start, lastFlush, flushDelay, minFlushDelay) {
        chaser.Flush();
        flushDelay := WrapToInt64(end - start);
        lastFlush := end;
      }
      return Pass;
    }
  }
}
