/** Metastreams of the log format V3, where streams are numbered by `uint`:
    a stream has an even number and its metastream the next, odd, number. */
module LogV3Metastreams {
  import opened Wrappers
  import opened Primitives

  datatype MetastreamError =
    | AlreadyAMetastream(streamId: uint32)
    | NotAMetastream(streamId: uint32)

  /** `IsMetaStream`: the odd numbers. */
  function IsMetaStream(streamId: uint32): (r: bool)
    ensures r <==> streamId % 2 == 1
  {
    streamId % 2 == 1
  }

  /** `MetaStreamOf`: refuses a metastream; otherwise the next number, which is
      odd and, the largest `uint` being odd, never wraps around. */
  function MetaStreamOf(streamId: uint32): (r: Result<uint32, MetastreamError>)
    ensures r.Err? <==> IsMetaStream(streamId)
    ensures r.Err? ==> r.error == AlreadyAMetastream(streamId)
    ensures r.Ok? ==> IsMetaStream(r.value) && r.value as int == streamId as int + 1
  {
    if IsMetaStream(streamId) then Err(AlreadyAMetastream(streamId))
    else Ok(streamId + 1)
  }

  /** `OriginalStreamOf`: refuses a non-metastream; otherwise the previous
      number, which is even and, zero being even, never wraps around. */
  function OriginalStreamOf(streamId: uint32): (r: Result<uint32, MetastreamError>)
    ensures r.Err? <==> !IsMetaStream(streamId)
    ensures r.Err? ==> r.error == NotAMetastream(streamId)
    ensures r.Ok? ==> !IsMetaStream(r.value) && r.value as int == streamId as int - 1
  {
    if !IsMetaStream(streamId) then Err(NotAMetastream(streamId))
    else Ok(streamId - 1)
  }

  /** Both round trips hold: a stream is the original of its metastream, and
      a metastream is the metastream of its original. */
  lemma MetaStreamRoundTrips(streamId: uint32)
    ensures !IsMetaStream(streamId) ==> OriginalStreamOf(MetaStreamOf(streamId).value) == Ok(streamId)
    ensures IsMetaStream(streamId) ==> MetaStreamOf(OriginalStreamOf(streamId).value) == Ok(streamId)
  {
  }

  /** Every stream number is exactly one of: an ordinary stream with a
      metastream, or a metastream with an original. */
  lemma StreamOrMetastream(streamId: uint32)
    ensures MetaStreamOf(streamId).Ok? != OriginalStreamOf(streamId).Ok?
  {
  }
}
