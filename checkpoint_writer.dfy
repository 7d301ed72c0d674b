/** The checkpoint writer of a persistent subscription: it writes the
    subscription's position to its own state stream, one write at a time,
    bootstrapping the stream's metadata first when the stream does not exist
    yet, and tracks the stream version the next write should expect. */
module PersistentSubscriptionCheckpoint {
  import opened Wrappers
  import SystemNames
  import StreamAcls

  /** The expected-version argument of a write: the two symbolic constants
      of `ExpectedVersion`, or a concrete event number. */
  datatype ExpectedVersion = Any | NoStream | Version(eventNumber: int)

  /** The outcome of a write, as its completion message reports it. */
  datatype OperationResult = Success | Failure

  datatype StreamMetadata = StreamMetadata(
    maxCount: Option<int>, maxAge: Option<int>, cacheControl: Option<int>, acl: StreamAcls.StreamAcl)

  /** The data of the event a write carries: a checkpoint holds the
      subscription position's text, a metadata event the stream's metadata. */
  datatype EventBody = CheckpointState(state: string) | MetadataBody(metadata: StreamMetadata)

  datatype Event = Event(eventType: string, isJson: bool, body: EventBody)

  /** Which callback the dispatcher will complete a write with. */
  datatype Callback =
    | WriteStateCompletedCallback
    /** The lambda of `PublishMetadata`, which captured the state. */
    | MetadataWrittenCallback(state: string)

  datatype WriteRequest = WriteEvent(streamId: string, expectedVersion: ExpectedVersion, event: Event, callback: Callback)

  const CheckpointEventType: string := "$SubscriptionCheckpoint"
  const StreamMetadataEventType: string := "$metadata"
  const Admins: string := "$admins"
  const AllRoles: string := "$all"

  /** The state stream of a subscription. */
  function StateStreamOf(subscriptionId: string): (s: string)
    ensures SystemNames.IsSystemStream(s) && !SystemNames.IsMetastream(s)
  {
    "$persistentsubscription-" + subscriptionId + "-checkpoint"
  }

  /** Distinct subscriptions checkpoint to distinct streams. */
  lemma StateStreamsAreDistinct(a: string, b: string)
    ensures StateStreamOf(a) == StateStreamOf(b) ==> a == b
  {
    if StateStreamOf(a) == StateStreamOf(b) {
      var prefix := "$persistentsubscription-";
      var sa, sb := StateStreamOf(a), StateStreamOf(b);
      assert |a| == |b|;
      assert a == sa[|prefix|..|prefix| + |a|];
      assert b == sb[|prefix|..|prefix| + |b|];
    }
  }

  /** The metadata of a new state stream: at most two events are kept, and
      only administrators may read, write or delete it or change its
      metadata, while everybody may read its metadata. */
  function StateStreamMetadata(): (m: StreamMetadata)
    ensures m.maxCount == Some(2) && m.maxAge.None? && m.cacheControl.None?
    ensures m.acl.readRoles == m.acl.writeRoles == m.acl.deleteRoles == m.acl.metaWriteRoles == Some([Admins])
    ensures m.acl.metaReadRoles == Some([AllRoles])
  {
    StreamMetadata(Some(2), None, None, StreamAcls.FromRoles(Some(Admins), Some(Admins), Some(Admins), Some(AllRoles), Some(Admins)))
  }

  /** The `IODispatcher`, recording the writes it was asked for; completions
      are delivered by calling the writer's callbacks. */
  class IODispatcher {
    var requests: seq<WriteRequest>

    constructor ()
      ensures requests == []
    {
      requests := [];
    }

    method WriteEvent(request: WriteRequest)
      modifies this
      ensures requests == old(requests) + [request]
    {
      requests := requests + [request];
    }
  }

  class PersistentSubscriptionCheckpointWriter {
    const ioDispatcher: IODispatcher
    const subscriptionStateStream: string
    var version: ExpectedVersion
    var outstandingWrite: bool

    constructor (subscriptionId: string, ioDispatcher: IODispatcher)
      ensures subscriptionStateStream == StateStreamOf(subscriptionId)
      ensures this.ioDispatcher == ioDispatcher
      ensures version == Any && !outstandingWrite
    {
      subscriptionStateStream := StateStreamOf(subscriptionId);
      this.ioDispatcher := ioDispatcher;
      version := Any;
      outstandingWrite := false;
    }

    /** `StartFrom`: only the version changes. */
    method StartFrom(v: ExpectedVersion)
      modifies this
      ensures version == v && outstandingWrite == old(outstandingWrite)
    {
      version := v;
    }

    /** The checkpoint write `PublishCheckpoint` issues. */
    function CheckpointRequest(state: string): (w: WriteRequest)
      reads this
      ensures w.streamId == subscriptionStateStream && w.expectedVersion == version
      ensures w.event.body == CheckpointState(state) && w.callback == WriteStateCompletedCallback
    {
      WriteEvent(subscriptionStateStream, version, Event(CheckpointEventType, true, CheckpointState(state)),
        WriteStateCompletedCallback)
    }

    /** The metadata write `PublishMetadata` issues. */
    function MetadataRequest(state: string): (w: WriteRequest)
      reads this
      ensures w.streamId == SystemNames.MetastreamOf(subscriptionStateStream)
      ensures w.expectedVersion == Any && w.event.body == MetadataBody(StateStreamMetadata())
      ensures w.callback == MetadataWrittenCallback(state)
    {
      WriteEvent(SystemNames.MetastreamOf(subscriptionStateStream), Any,
        Event(StreamMetadataEventType, true, MetadataBody(StateStreamMetadata())), MetadataWrittenCallback(state))
    }

    /** `BeginWriteState`: nothing while a write is outstanding; otherwise
        one write, of the metadata when the stream does not exist, of the
        checkpoint expecting the current version when it does. */
    method BeginWriteState(state: string)
      modifies this, ioDispatcher
      ensures version == old(version)
      ensures old(outstandingWrite) ==> outstandingWrite && ioDispatcher.requests == old(ioDispatcher.requests)
      ensures !old(outstandingWrite) ==> outstandingWrite
      ensures !old(outstandingWrite) && version == NoStream ==>
        ioDispatcher.requests == old(ioDispatcher.requests) + [MetadataRequest(state)]
      ensures !old(outstandingWrite) && version != NoStream ==>
        ioDispatcher.requests == old(ioDispatcher.requests) + [CheckpointRequest(state)]
    {
      if outstandingWrite {
        return;
      }
      if version == NoStream {
        PublishMetadata(state);
      } else {
        PublishCheckpoint(state);
      }
    }

    method PublishCheckpoint(state: string)
      modifies this, ioDispatcher
      ensures outstandingWrite && version == old(version)
      ensures ioDispatcher.requests == old(ioDispatcher.requests) + [CheckpointRequest(state)]
    {
      outstandingWrite := true;
      ioDispatcher.WriteEvent(CheckpointRequest(state));
    }

    method PublishMetadata(state: string)
      modifies this, ioDispatcher
      ensures outstandingWrite && version == old(version)
      ensures ioDispatcher.requests == old(ioDispatcher.requests) + [MetadataRequest(state)]
    {
      outstandingWrite := true;
      ioDispatcher.WriteEvent(MetadataRequest(state));
    }

    /** The completion of the metadata write: the gate opens, and only a
        successful write is followed by the checkpoint write. */
    method MetadataWritten(state: string, result: OperationResult)
      modifies this, ioDispatcher
      ensures version == old(version)
      ensures result == Success ==>
        outstandingWrite && ioDispatcher.requests == old(ioDispatcher.requests) + [CheckpointRequest(state)]
      ensures result != Success ==> !outstandingWrite && ioDispatcher.requests == old(ioDispatcher.requests)
    {
      outstandingWrite := false;
      if result == Success {
        PublishCheckpoint(state);
      }
    }

    /** `WriteStateCompleted`: the gate opens; the version becomes the last
        event written, or `Any` after a failure. No write is issued. A
        successful write reports an event number of 0 or more, so the
        concrete `Version` never collides with the negative `long` values
        that stand for `Any` and `NoStream` in the source. */
    method WriteStateCompleted(result: OperationResult, lastEventNumber: int)
      modifies this
      ensures !outstandingWrite
      ensures result == Success ==> version == Version(lastEventNumber)
      ensures result != Success ==> version == Any
    {
      outstandingWrite := false;
      if result == Success {
        version := Version(lastEventNumber);
      } else {
        version := Any;
      }
    }
  }
}
