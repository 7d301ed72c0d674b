/** The log records the chaser replays, and the result of one sequential read.
    Only the fields the chaser looks at are kept. */
module LogRecords {
  import opened Wrappers
  import opened Primitives
  import EpochRecords

  /** The `PrepareFlags` bits the chaser tests, and the JSON marker. */
  datatype PrepareFlag = Data | StreamDelete | TransactionBegin | TransactionEnd | IsCommitted | IsJson

  /** The three record types that are read as prepares. */
  datatype PrepareKind = StreamRecord | EventTypeRecord | PrepareRecord

  datatype PrepareLogRecord = PrepareLogRecord(
    kind: PrepareKind,
    logPosition: int64,
    correlationId: Guid,
    transactionPosition: int64,
    transactionOffset: int32,
    expectedVersion: int64,
    flags: set<PrepareFlag>)

  datatype CommitLogRecord = CommitLogRecord(
    logPosition: int64,
    correlationId: Guid,
    transactionPosition: int64,
    firstEventNumber: int64)

  /** The payload of a system record: an epoch, or another system record
      type identified by its code. */
  datatype SystemBody = EpochBody(epoch: EpochRecords.EpochRecord) | OtherSystemBody(systemRecordType: int)

  datatype LogRecord =
    | Prepare(prepare: PrepareLogRecord)
    | Commit(commit: CommitLogRecord)
    | System(logPosition: int64, body: SystemBody)
    | Partition(logPosition: int64)
    | PartitionType(logPosition: int64)
    /** A record type code no case of the chaser's switch names. */
    | Unknown(logPosition: int64, recordType: int)

  /** `SeqReadResult`; `None` stands for a null record. */
  datatype SeqReadResult = SeqReadResult(
    success: bool,
    eof: bool,
    logRecord: Option<LogRecord>,
    recordPrePosition: int64,
    recordPostPosition: int64)

  /** `Flags.HasAnyOf(...)`. */
  predicate HasAnyOf(flags: set<PrepareFlag>, any: set<PrepareFlag>) {
    flags * any != {}
  }
}
