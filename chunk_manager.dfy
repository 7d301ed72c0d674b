/** The chunk registry of the transaction file: a fixed array with one slot
    per chunk number, each slot holding the chunk whose number range covers
    it, and a count of the chunk numbers in use. A scavenged chunk that merges
    several chunks occupies the slots of all of them. */
module ChunkManager {
  import opened Wrappers
  import opened Primitives
  import Ensure

  /** The number of slots: chunk file names carry six digits. */
  const MaxChunksCount: int := 400_000

  /** A slot of the registry. */
  type ChunkNumber = n: int | 0 <= n < MaxChunksCount

  /** A `TFChunk`, reduced to what the registry looks at: the number range
      and chunk size of its header, whether it is completed, the data and map
      sizes of its footer, and the two flags the registry changes. */
  class Chunk {
    const start: ChunkNumber
    const end: ChunkNumber
    const isReadOnly: bool
    const chunkSize: int
    const physicalDataSize: int
    const mapSize: int
    var cached: bool
    var markedForDeletion: bool

    constructor (start: ChunkNumber, end: ChunkNumber, isReadOnly: bool, chunkSize: int, physicalDataSize: int, mapSize: int)
      ensures this.start == start && this.end == end && this.isReadOnly == isReadOnly
      ensures this.chunkSize == chunkSize && this.physicalDataSize == physicalDataSize && this.mapSize == mapSize
      ensures !cached && !markedForDeletion
    {
      this.start := start;
      this.end := end;
      this.isReadOnly := isReadOnly;
      this.chunkSize := chunkSize;
      this.physicalDataSize := physicalDataSize;
      this.mapSize := mapSize;
      cached := false;
      markedForDeletion := false;
    }

    method MarkForDeletion()
      modifies this
      ensures markedForDeletion && cached == old(cached)
    {
      markedForDeletion := true;
    }

    method CacheInMemory()
      modifies this
      ensures cached && markedForDeletion == old(markedForDeletion)
    {
      cached := true;
    }

    method UnCacheFromMemory()
      modifies this
      ensures !cached && markedForDeletion == old(markedForDeletion)
    {
      cached := false;
    }
  }

  /** The header a replicated chunk arrives with. */
  datatype ChunkHeader = ChunkHeader(chunkStartNumber: ChunkNumber, chunkEndNumber: ChunkNumber, chunkSize: int)

  /** The parts of `TFChunkDbConfig` the registry reads. */
  datatype TFChunkDbConfig = TFChunkDbConfig(chunkSize: int32, maxChunksCacheSize: int64, inMemDb: bool)

  /** The exceptions the registry's operations throw. */
  datatype ManagerError =
    | ArgumentOutOfRange(paramName: string)
    | InvalidArgument(guard: Ensure.ArgumentError)
    /** `SwitchChunk` was handed a chunk that is not completed. */
    | ChunkNotCompleted
    /** A new ongoing chunk that does not start at the chunk count. */
    | UnexpectedStartNumber(chunkStartNumber: int, chunkEndNumber: int, chunksCount: int)
    /** A chunk left behind the tail after a raw replication switch. */
    | ExcessiveChunk(chunkNumber: int)
    /** A chunk number in range whose slot is empty. */
    | ChunkNotPresent
    | IndexOutOfRange
    | NullReference
    | DivideByZero
    | Overflow

  /** The invariant of the slots: the registry has `MaxChunksCount` slots,
      and every occupied slot lies within its chunk's number range. */
  predicate Registered(slots: seq<Chunk?>) {
    |slots| == MaxChunksCount &&
    forall i :: 0 <= i < |slots| && slots[i] != null ==> slots[i].start <= i <= slots[i].end
  }

  /** A stronger shape, which the operations do not keep in general: every
      chunk occupies every slot of its range. */
  predicate Contiguous(slots: seq<Chunk?>) {
    forall i, j :: 0 <= i < |slots| && 0 <= j < |slots| && slots[i] != null && slots[i].start <= j <= slots[i].end ==>
      slots[j] == slots[i]
  }

  /** The slots with those numbered `lo` to `hi` set to `x`. */
  function Overwrite(slots: seq<Chunk?>, lo: int, hi: int, x: Chunk?): (r: seq<Chunk?>)
    ensures |r| == |slots|
    ensures forall i :: 0 <= i < |slots| ==> r[i] == if lo <= i <= hi then x else slots[i]
  {
    seq(|slots|, i requires 0 <= i < |slots| => if lo <= i <= hi then x else slots[i])
  }

  /** The chunks occupying the slots numbered `lo` to `hi`. */
  function Occupants(slots: seq<Chunk?>, lo: int, hi: int): set<Chunk> {
    set i | 0 <= i < |slots| && lo <= i <= hi && slots[i] != null :: slots[i]
  }

  /** Overwriting a range with a chunk whose range contains it, or with
      nothing, keeps the invariant. */
  lemma OverwriteRegistered(slots: seq<Chunk?>, lo: int, hi: int, x: Chunk?)
    requires Registered(slots)
    requires x != null ==> x.start <= lo && hi <= x.end
    ensures Registered(Overwrite(slots, lo, hi, x))
  {
  }

  /** The occupants after an overwrite are old occupants, or the chunk
      written. */
  lemma OccupantsAfterOverwrite(slots: seq<Chunk?>, lo: int, hi: int, x: Chunk, a: int, b: int)
    ensures Occupants(Overwrite(slots, lo, hi, x), a, b) <= Occupants(slots, 0, |slots| - 1) + {x}
  {
  }

  /** The occupants of a range are occupants of any range containing it. */
  lemma OccupantsWithin(slots: seq<Chunk?>, lo: int, hi: int, lo2: int, hi2: int)
    requires lo2 <= lo && hi <= hi2
    ensures Occupants(slots, lo, hi) <= Occupants(slots, lo2, hi2)
  {
  }

  /** Slot `chunkNum` among the first `count`, or the exception for a number
      out of range or an empty slot. */
  function Lookup(slots: seq<Chunk?>, count: int, chunkNum: int, paramName: string): (r: Result<Chunk, ManagerError>)
    requires count <= |slots|
    ensures r.Ok? <==> 0 <= chunkNum < count && slots[chunkNum] != null
    ensures r.Ok? ==> r.value == slots[chunkNum]
    ensures !(0 <= chunkNum < count) ==> r == Err(ArgumentOutOfRange(paramName))
  {
    if chunkNum < 0 || chunkNum >= count then Err(ArgumentOutOfRange(paramName))
    else if slots[chunkNum] == null then Err(ChunkNotPresent)
    else Ok(slots[chunkNum])
  }

  /** After a chunk is added, every number of its range finds it, as long
      as the count is raised to cover the range. */
  lemma {:induction false} AddedChunkIsFound(slots: seq<Chunk?>, count: int, c: Chunk, n: int)
    requires Registered(slots) && 0 <= count <= |slots|
    requires c.start <= n <= c.end
    ensures Lookup(Overwrite(slots, c.start, c.end, c), Max(count, c.end + 1), n, "chunkNum") == Ok(c)
  {
    var after := Overwrite(slots, c.start, c.end, c);
    assert after[n] == c;
  }

  /** Adding a chunk leaves every lookup outside its range as it was. */
  lemma {:induction false} AddLeavesOthers(slots: seq<Chunk?>, count: int, c: Chunk, n: int)
    requires Registered(slots) && 0 <= count <= |slots|
    requires !(c.start <= n <= c.end) && n < count
    ensures Lookup(Overwrite(slots, c.start, c.end, c), Max(count, c.end + 1), n, "chunkNum") ==
      Lookup(slots, count, n, "chunkNum")
  {
    if 0 <= n {
      assert Overwrite(slots, c.start, c.end, c)[n] == slots[n];
    }
  }

  function Max(a: int, b: int): int { if a >= b then a else b }

  function Abs(a: int): nat { if a >= 0 then a else -a }

  /** C# integer division, which truncates toward zero: the remainder
      `a - q * b` is smaller than the divisor in magnitude and never has the
      opposite sign of the dividend, which determines `q`. */
  function TruncDiv(a: int, b: int): (q: int)
    requires b != 0
    ensures a >= 0 && b > 0 ==> q == a / b
    ensures Abs(q) <= Abs(a)
    ensures Abs(a - q * b) < Abs(b)
    ensures a >= 0 ==> a - q * b >= 0
    ensures a <= 0 ==> a - q * b <= 0
    ensures Abs(a) < Abs(b) ==> q == 0
  {
    var q0 := Abs(a) / Abs(b);
    var q := if (a < 0) == (b < 0) then q0 else -q0;
    TruncRemainder(a, b, q0, q);
    q
  }

  /** The remainder of the truncated quotient, case by case on the signs. */
  lemma TruncRemainder(a: int, b: int, q0: int, q: int)
    requires b != 0 && q0 == Abs(a) / Abs(b)
    requires q == if (a < 0) == (b < 0) then q0 else -q0
    ensures a >= 0 && b > 0 ==> q == a / b
    ensures Abs(q) <= Abs(a)
    ensures Abs(a - q * b) < Abs(b)
    ensures a >= 0 ==> a - q * b >= 0
    ensures a <= 0 ==> a - q * b <= 0
    ensures Abs(a) < Abs(b) ==> q == 0
  {
    QuotientAtMost(Abs(a), Abs(b));
    if Abs(a) < Abs(b) {
      SmallQuotient(Abs(a), Abs(b));
    }
    var n: int := Abs(a);
    var d: int := Abs(b);
    DivModParts(n, d);
    var r: int := n - q0 * d;
    if b < 0 {
      MulNeg(q0, d);
    }
    if (a < 0) == (b < 0) {
      MulNeg(-q0, d);
    } else {
      MulNeg(q0, d);
    }
    assert q * b == (if a >= 0 then q0 * d else -(q0 * d));
    assert a - q * b == (if a >= 0 then r else -r);
  }

  lemma DivModParts(n: int, d: int)
    requires n >= 0 && d > 0
    ensures 0 <= n - (n / d) * d < d
  {
  }

  lemma SmallQuotient(n: int, d: int)
    requires 0 <= n < d
    ensures n / d == 0
  {
  }

  lemma MulNeg(x: int, y: int)
    ensures (-x) * y == -(x * y) && x * (-y) == -(x * y) && (-x) * (-y) == x * y
  {
  }

  /** Dividing by a positive number never makes a natural number larger. */
  lemma QuotientAtMost(x: nat, y: int)
    requires y >= 1
    ensures x / y <= x
  {
    var d := x / y;
    if d > x {
      AtLeastOnce(d, y);
    }
  }

  lemma {:induction false} AtLeastOnce(d: nat, y: int)
    requires y >= 1
    ensures y * d >= d
    decreases y
  {
    if y > 1 {
      AtLeastOnce(d, y - 1);
      assert y * d == (y - 1) * d + d;
    }
  }

  /** `logPosition / ChunkSize` in `long` arithmetic, or the exception the
      division throws. */
  function PositionQuotient(logPosition: int64, chunkSize: int32): (r: Result<int64, ManagerError>)
    ensures r.Err? <==> chunkSize == 0 || (logPosition == Int64Min && chunkSize == -1)
    ensures r.Ok? && logPosition >= 0 && chunkSize > 0 ==>
      r.value * chunkSize <= logPosition < (r.value + 1) * chunkSize
  {
    if chunkSize == 0 then Err(DivideByZero)
    else if logPosition == Int64Min && chunkSize == -1 then Err(Overflow)
    else
      var q := TruncDiv(logPosition, chunkSize);
      assert Int64Min <= q <= Int64Max by {
        if logPosition == Int64Min {
          assert Abs(chunkSize) >= 2 || q == logPosition / chunkSize;
        }
      }
      Ok(q)
  }

  /** `GetChunkFor` as written: the quotient is cast to `int` unchecked
      before the range check. */
  function GetChunkForAsWritten(slots: seq<Chunk?>, count: int, logPosition: int64, chunkSize: int32): (r: Result<Chunk, ManagerError>)
    requires count <= |slots|
    ensures r.Ok? ==> (
      && PositionQuotient(logPosition, chunkSize).Ok?
      && var n := WrapToInt32(PositionQuotient(logPosition, chunkSize).value);
      && 0 <= n < count && r.value == slots[n])
  {
    match PositionQuotient(logPosition, chunkSize)
    case Err(e) => Err(e)
    case Ok(q) => Lookup(slots, count, WrapToInt32(q), "logPosition")
  }

  /** With 256 MiB chunks, position 2^60 lies in chunk number 2^32, far past
      the last possible chunk, yet the cast turns that number into 0 and the
      position is resolved to the first chunk. */
  lemma HugePositionResolvesToFirstChunk(slots: seq<Chunk?>, count: int)
    requires Registered(slots) && 1 <= count <= |slots| && slots[0] != null
    ensures PositionQuotient(0x1000_0000_0000_0000, 0x1000_0000) == Ok(0x1_0000_0000)
    ensures 0x1_0000_0000 >= MaxChunksCount
    ensures GetChunkForAsWritten(slots, count, 0x1000_0000_0000_0000, 0x1000_0000) == Ok(slots[0])
  {
    assert TruncDiv(0x1000_0000_0000_0000, 0x1000_0000) == 0x1_0000_0000;
    assert WrapToInt32(0x1_0000_0000) == 0;
  }

  /** `GetChunkFor` with the range check made on the `long` quotient: the
      chunk found covers the position. */
  function ChunkForPosition(slots: seq<Chunk?>, count: int, logPosition: int64, chunkSize: int32): (r: Result<Chunk, ManagerError>)
    requires Registered(slots) && count <= |slots|
    ensures r.Ok? <==> (
      && PositionQuotient(logPosition, chunkSize).Ok?
      && var q := PositionQuotient(logPosition, chunkSize).value;
      && 0 <= q < count && slots[q] != null)
    ensures r.Ok? ==> var q := PositionQuotient(logPosition, chunkSize).value; r.value == slots[q] && r.value.start <= q <= r.value.end
    ensures r.Ok? && logPosition >= 0 && chunkSize > 0 ==>
      r.value.start * chunkSize <= logPosition < (r.value.end + 1) * chunkSize
  {
    match PositionQuotient(logPosition, chunkSize)
    case Err(e) => Err(e)
    case Ok(q) =>
      var r := Lookup(slots, count, q, "logPosition");
      assert r.Ok? && logPosition >= 0 && chunkSize > 0 ==>
        r.value.start * chunkSize <= logPosition < (r.value.end + 1) * chunkSize by {
        if r.Ok? && logPosition >= 0 && chunkSize > 0 {
          CoversPosition(r.value.start, q, r.value.end, logPosition, chunkSize);
        }
      }
      r
  }

  lemma CoversPosition(start: int, q: int, end: int, position: int, size: int)
    requires start <= q <= end && size > 0
    requires q * size <= position < (q + 1) * size
    ensures start * size <= position < (end + 1) * size
  {
    assert start * size <= q * size;
    assert (q + 1) * size <= (end + 1) * size;
  }

  /** C# division truncates toward zero, so a position in `(-ChunkSize, 0)`
      has chunk number 0 and resolves as position 0 does, in both lookups. */
  lemma SmallNegativePositionResolvesAsZero(slots: seq<Chunk?>, count: int, logPosition: int64, chunkSize: int32)
    requires Registered(slots) && 0 <= count <= |slots|
    requires chunkSize > 0 && -chunkSize < logPosition < 0
    ensures PositionQuotient(logPosition, chunkSize) == Ok(0)
    ensures GetChunkForAsWritten(slots, count, logPosition, chunkSize) == GetChunkForAsWritten(slots, count, 0, chunkSize)
    ensures ChunkForPosition(slots, count, logPosition, chunkSize) == ChunkForPosition(slots, count, 0, chunkSize)
  {
    assert TruncDiv(logPosition, chunkSize) == 0 && TruncDiv(0, chunkSize) == 0;
    assert PositionQuotient(logPosition, chunkSize) == Ok(0) == PositionQuotient(0, chunkSize);
  }

  /** Wherever the quotient fits in an `int`, the cast changes nothing. */
  lemma AsWrittenAgreesInRange(slots: seq<Chunk?>, count: int, logPosition: int64, chunkSize: int32)
    requires Registered(slots) && 0 <= count <= |slots|
    requires PositionQuotient(logPosition, chunkSize).Ok? && Int32Min <= PositionQuotient(logPosition, chunkSize).value <= Int32Max
    ensures GetChunkForAsWritten(slots, count, logPosition, chunkSize) == ChunkForPosition(slots, count, logPosition, chunkSize)
  {
  }

  /** The check loop of `ReplaceChunksWith` from slot `i`: an empty slot is
      skipped, an occupant reaching outside `[lo..hi]` fails the check, and
      an occupant inside it is skipped to its end. */
  predicate ReplaceCheck(slots: seq<Chunk?>, i: int, lo: int, hi: int)
    requires Registered(slots) && 0 <= i && hi < |slots|
    decreases hi - i
  {
    if i > hi then true
    else if slots[i] == null then ReplaceCheck(slots, i + 1, lo, hi)
    else if slots[i].start < lo || slots[i].end > hi then false
    else ReplaceCheck(slots, slots[i].end + 1, lo, hi)
  }

  /** Every occupant of the slots `[from..hi]` lies within `[lo..hi]`. */
  predicate OccupantsFit(slots: seq<Chunk?>, from: int, lo: int, hi: int) {
    forall j :: 0 <= j < |slots| && from <= j <= hi && slots[j] != null ==> lo <= slots[j].start && slots[j].end <= hi
  }

  /** The check passes whenever every occupant of the range lies within it. */
  lemma {:induction false} FittingOccupantsPass(slots: seq<Chunk?>, i: int, lo: int, hi: int)
    requires Registered(slots) && 0 <= i && hi < |slots|
    requires OccupantsFit(slots, i, lo, hi)
    ensures ReplaceCheck(slots, i, lo, hi)
    decreases hi - i
  {
    if i <= hi {
      if slots[i] == null {
        FittingOccupantsPass(slots, i + 1, lo, hi);
      } else {
        FittingOccupantsPass(slots, slots[i].end + 1, lo, hi);
      }
    }
  }

  /** When every chunk occupies its whole range, the check passes only if
      every occupant lies within the range: the slots it skips hold the
      chunk it has just checked. */
  lemma {:induction false} PassingRangeFits(slots: seq<Chunk?>, i: int, lo: int, hi: int)
    requires Registered(slots) && Contiguous(slots) && 0 <= i && hi < |slots|
    requires ReplaceCheck(slots, i, lo, hi)
    ensures OccupantsFit(slots, i, lo, hi)
    decreases hi - i
  {
    if i <= hi {
      if slots[i] == null {
        PassingRangeFits(slots, i + 1, lo, hi);
      } else {
        var c := slots[i];
        PassingRangeFits(slots, c.end + 1, lo, hi);
        forall j | 0 <= j < |slots| && i <= j <= hi && slots[j] != null
          ensures lo <= slots[j].start && slots[j].end <= hi
        {
          if j <= c.end {
            assert slots[j] == c;
          }
        }
      }
    }
  }

  /** Switching a completed chunk that already occupies its whole range
      displaces the chunk itself: the check passes and the chunk is among the
      occupants marked for deletion. */
  lemma SwitchedInPlaceChunkIsDisplaced(slots: seq<Chunk?>, c: Chunk)
    requires Registered(slots) && c.start <= c.end
    requires forall j :: c.start <= j <= c.end ==> slots[j] == c
    ensures ReplaceCheck(slots, c.start, c.start, c.end)
    ensures c in Occupants(slots, c.start, c.end)
  {
    FittingOccupantsPass(slots, c.start, c.start, c.end);
    assert slots[c.start] == c;
  }

  /** The cache footprint of a chunk: a completed chunk's data and map, an
      ongoing chunk's whole size, each with the header and the footer. */
  function CacheSize(c: Chunk, headerSize: nat, footerSize: nat): int {
    if c.isReadOnly then c.physicalDataSize + c.mapSize + headerSize + footerSize
    else c.chunkSize + headerSize + footerSize
  }

  /** The backward scan, which looks at slot `top - 1` and goes on just below
      the start of the chunk there, reaches `bottom` exactly and meets no
      empty slot on the way. */
  predicate ChainDown(slots: seq<Chunk?>, bottom: int, top: int)
    requires Registered(slots) && 0 <= bottom && top <= |slots|
    decreases top
  {
    top == bottom ||
    (top > bottom && slots[top - 1] != null && slots[top - 1].start >= bottom && ChainDown(slots, bottom, slots[top - 1].start))
  }

  /** The total cache size of the chunks such a scan meets. */
  function ChainCost(slots: seq<Chunk?>, bottom: int, top: int, headerSize: nat, footerSize: nat): int
    requires Registered(slots) && 0 <= bottom && top <= |slots| && ChainDown(slots, bottom, top)
    decreases top
  {
    if top == bottom then 0
    else CacheSize(slots[top - 1], headerSize, footerSize) + ChainCost(slots, bottom, slots[top - 1].start, headerSize, footerSize)
  }

  /** The chunks such a scan meets. */
  function ChainChunks(slots: seq<Chunk?>, bottom: int, top: int): set<Chunk>
    requires Registered(slots) && 0 <= bottom && top <= |slots| && ChainDown(slots, bottom, top)
    decreases top
  {
    if top == bottom then {} else {slots[top - 1]} + ChainChunks(slots, bottom, slots[top - 1].start)
  }

  /** One more step of the backward scan: the chunk below `bottom` joins the
      chain, and its size is added to the chain's. */
  lemma {:induction false} ChainExtends(slots: seq<Chunk?>, bottom: int, top: int, headerSize: nat, footerSize: nat)
    requires Registered(slots) && 0 < bottom && top <= |slots| && ChainDown(slots, bottom, top)
    requires slots[bottom - 1] != null
    ensures var c := slots[bottom - 1];
      && ChainDown(slots, c.start, top)
      && ChainCost(slots, c.start, top, headerSize, footerSize) == ChainCost(slots, bottom, top, headerSize, footerSize) + CacheSize(c, headerSize, footerSize)
      && ChainChunks(slots, c.start, top) == ChainChunks(slots, bottom, top) + {c}
    decreases top
  {
    var c := slots[bottom - 1];
    if top == bottom {
      assert ChainDown(slots, c.start, c.start);
    } else {
      ChainExtends(slots, bottom, slots[top - 1].start, headerSize, footerSize);
    }
  }

  /** The forward scan, which looks at slot `from` and goes on just after the
      end of the chunk there, reaches `count` without meeting an empty slot. */
  predicate ChainUp(slots: seq<Chunk?>, from: int, count: int)
    requires Registered(slots) && 0 <= from && count <= |slots|
    decreases count - from
  {
    from >= count || (slots[from] != null && ChainUp(slots, slots[from].end + 1, count))
  }

  /** The chunks the forward scan meets. */
  function ChainUpChunks(slots: seq<Chunk?>, from: int, count: int): set<Chunk>
    requires Registered(slots) && 0 <= from && count <= |slots| && ChainUp(slots, from, count)
    decreases count - from
  {
    if from >= count then {} else {slots[from]} + ChainUpChunks(slots, slots[from].end + 1, count)
  }

  /** In a contiguous registry, the forward scan from a point of the backward
      chain meets the same chunks as the backward scan down to it: the chunks
      the cache pass caches are those whose sizes it added up. */
  lemma ChainsAgree(slots: seq<Chunk?>, bottom: int, top: int)
    requires Registered(slots) && Contiguous(slots) && 0 <= bottom <= top <= |slots| && ChainDown(slots, bottom, top)
    ensures ChainUp(slots, bottom, top) && ChainUpChunks(slots, bottom, top) == ChainChunks(slots, bottom, top)
  {
    ForwardThroughChain(slots, bottom, top, top);
  }

  /** The forward scan from `bottom` passes through every point `mid` of the
      backward chain, a point where a chunk starts, so it meets the chain's
      chunks below `mid` and then those the scan from `mid` meets. */
  lemma {:induction false} ForwardThroughChain(slots: seq<Chunk?>, bottom: int, mid: int, top: int)
    requires Registered(slots) && Contiguous(slots) && 0 <= bottom <= mid <= top <= |slots|
    requires ChainDown(slots, bottom, mid) && ChainUp(slots, mid, top)
    requires mid < top ==> slots[mid] != null && slots[mid].start == mid
    ensures ChainUp(slots, bottom, top)
    ensures ChainUpChunks(slots, bottom, top) == ChainChunks(slots, bottom, mid) + ChainUpChunks(slots, mid, top)
    decreases mid
  {
    if mid != bottom {
      var c := slots[mid - 1];
      assert mid < top ==> c.end < mid;
      assert slots[c.start] == c;
      assert ChainUpChunks(slots, c.start, top) == {c} + ChainUpChunks(slots, mid, top);
      ForwardThroughChain(slots, bottom, c.start, top);
    }
  }

  class TFChunkManager {
    const config: TFChunkDbConfig
    /** `ChunkHeader.Size` and `ChunkFooter.Size`. */
    const headerSize: nat
    const footerSize: nat
    const chunks: array<Chunk?>
    var chunksCount: int
    var cachingEnabled: bool
    /** Background cache passes requested and not yet run. */
    var backgroundPassesRemaining: nat

    predicate Valid()
      reads this, chunks
    {
      chunks.Length == MaxChunksCount && 0 <= chunksCount <= MaxChunksCount && Registered(chunks[..])
    }

    /** An empty registry, with caching off. */
    constructor (config: TFChunkDbConfig, headerSize: nat, footerSize: nat)
      ensures Valid() && fresh(chunks)
      ensures this.config == config && this.headerSize == headerSize && this.footerSize == footerSize
      ensures forall i :: 0 <= i < chunks.Length ==> chunks[i] == null
      ensures chunksCount == 0 && !cachingEnabled && backgroundPassesRemaining == 0
    {
      this.config := config;
      this.headerSize := headerSize;
      this.footerSize := footerSize;
      chunks := new Chunk?[MaxChunksCount](_ => null);
      chunksCount := 0;
      cachingEnabled := false;
      backgroundPassesRemaining := 0;
    }

    /** `GetChunk`: the chunk in slot `chunkNum`, which covers that number;
        a number outside `[0, ChunksCount)` is out of range, and an empty
        slot is reported as a missing chunk. */
    function GetChunk(chunkNum: int32): (r: Result<Chunk, ManagerError>)
      reads this, chunks
      requires Valid()
      ensures r.Ok? <==> 0 <= chunkNum < chunksCount && chunks[chunkNum] != null
      ensures r.Ok? ==> r.value == chunks[chunkNum] && r.value.start <= chunkNum <= r.value.end
      ensures !(0 <= chunkNum < chunksCount) ==> r == Err(ArgumentOutOfRange("chunkNum"))
      ensures 0 <= chunkNum < chunksCount && chunks[chunkNum] == null ==> r == Err(ChunkNotPresent)
    {
      Lookup(chunks[..], chunksCount, chunkNum, "chunkNum")
    }

    /** `GetChunkFor`: the chunk whose numbers cover the position's chunk
        number, `logPosition / ChunkSize`, with the range check made on the
        `long` quotient. Wherever that quotient fits in an `int` this is the
        source's lookup. */
    function GetChunkFor(logPosition: int64): (r: Result<Chunk, ManagerError>)
      reads this, chunks
      requires Valid()
      ensures PositionQuotient(logPosition, config.chunkSize).Ok? &&
              Int32Min <= PositionQuotient(logPosition, config.chunkSize).value <= Int32Max ==>
        r == GetChunkForAsWritten(chunks[..], chunksCount, logPosition, config.chunkSize)
      ensures r.Ok? ==> PositionQuotient(logPosition, config.chunkSize).Ok?
      ensures r.Ok? ==> var q := PositionQuotient(logPosition, config.chunkSize).value;
        0 <= q < chunksCount && r.value == chunks[q] && r.value.start <= q <= r.value.end
      ensures r.Ok? && logPosition >= 0 && config.chunkSize > 0 ==>
        r.value.start * config.chunkSize <= logPosition < (r.value.end + 1) * config.chunkSize
    {
      var q := PositionQuotient(logPosition, config.chunkSize);
      if q.Ok? && Int32Min <= q.value <= Int32Max then
        AsWrittenAgreesInRange(chunks[..], chunksCount, logPosition, config.chunkSize);
        ChunkForPosition(chunks[..], chunksCount, logPosition, config.chunkSize)
      else
        ChunkForPosition(chunks[..], chunksCount, logPosition, config.chunkSize)
    }

    /** `TryGetChunkFor`: every exception of `GetChunkFor` becomes `false`
        and a null chunk. */
    function TryGetChunkFor(logPosition: int64): (r: (bool, Chunk?))
      reads this, chunks
      requires Valid()
      ensures PositionQuotient(logPosition, config.chunkSize).Ok? &&
              Int32Min <= PositionQuotient(logPosition, config.chunkSize).value <= Int32Max ==>
        var w := GetChunkForAsWritten(chunks[..], chunksCount, logPosition, config.chunkSize);
        (r.0 <==> w.Ok?) && (w.Ok? ==> r.1 == w.value)
      ensures r.0 <==> (
        && PositionQuotient(logPosition, config.chunkSize).Ok?
        && var q := PositionQuotient(logPosition, config.chunkSize).value;
        && 0 <= q < chunksCount && chunks[q] != null)
      ensures r.0 ==> r.1 != null && r.1 == GetChunkFor(logPosition).value
      ensures !r.0 ==> r.1 == null
    {
      match GetChunkFor(logPosition)
      case Ok(c) => (true, c)
      case Err(_) => (false, null)
    }

    /** `TriggerBackgroundCaching`: one more pass is requested, unless
        caching is off. */
    method TriggerBackgroundCaching()
      modifies this
      ensures backgroundPassesRemaining == old(backgroundPassesRemaining) + (if cachingEnabled then 1 else 0)
      ensures chunksCount == old(chunksCount) && cachingEnabled == old(cachingEnabled)
    {
      if !cachingEnabled {
        return;
      }
      backgroundPassesRemaining := backgroundPassesRemaining + 1;
    }

    /** `EnableCaching`: caching is on, and a pass is requested. */
    method EnableCaching()
      modifies this
      ensures cachingEnabled && backgroundPassesRemaining == old(backgroundPassesRemaining) + 1
      ensures chunksCount == old(chunksCount)
    {
      cachingEnabled := true;
      TriggerBackgroundCaching();
    }

    /** `AddChunk`: the chunk occupies every slot of its range, the count
        covers the range, and a cache pass is requested. */
    method AddChunk(chunk: Chunk)
      requires Valid()
      modifies this, chunks
      ensures Valid()
      ensures chunks[..] == Overwrite(old(chunks[..]), chunk.start, chunk.end, chunk)
      ensures chunksCount == Max(old(chunksCount), chunk.end + 1)
      ensures cachingEnabled == old(cachingEnabled)
      ensures backgroundPassesRemaining == old(backgroundPassesRemaining) + (if cachingEnabled then 1 else 0)
    {
      var i := chunk.start;
      while i <= chunk.end
        modifies chunks
        invariant chunk.start <= i && (i <= chunk.end + 1 || i == chunk.start)
        invariant chunks[..] == Overwrite(old(chunks[..]), chunk.start, i - 1, chunk)
      {
        chunks[i] := chunk;
        i := i + 1;
      }
      assert chunks[..] == Overwrite(old(chunks[..]), chunk.start, chunk.end, chunk);
      OverwriteRegistered(old(chunks[..]), chunk.start, chunk.end, chunk);
      chunksCount := Max(chunk.end + 1, chunksCount);
      TriggerBackgroundCaching();
    }

    /** `AddNewChunk()`: an ongoing chunk of the configured size taking the
        next number; with every number in use, indexing the slots throws. */
    method AddNewChunk() returns (r: Result<Chunk, ManagerError>)
      requires Valid()
      modifies this, chunks
      ensures Valid()
      ensures old(chunksCount) == MaxChunksCount ==> r == Err(IndexOutOfRange) && unchanged(this, chunks)
      ensures old(chunksCount) < MaxChunksCount ==> (
        && r.Ok? && fresh(r.value)
        && r.value.start == r.value.end == old(chunksCount)
        && !r.value.isReadOnly && r.value.chunkSize == config.chunkSize
        && chunks[..] == old(chunks[..])[old(chunksCount) := r.value]
        && chunksCount == old(chunksCount) + 1
        && backgroundPassesRemaining == old(backgroundPassesRemaining) + (if cachingEnabled then 1 else 0))
      ensures cachingEnabled == old(cachingEnabled)
    {
      var chunkNumber := chunksCount;
      if chunkNumber >= MaxChunksCount {
        return Err(IndexOutOfRange);
      }
      var chunk := new Chunk(chunkNumber, chunkNumber, false, config.chunkSize, 0, 0);
      AddChunk(chunk);
      assert chunks[..] == old(chunks[..])[chunkNumber := chunk];
      return Ok(chunk);
    }

    /** `AddNewChunk(chunkHeader, transformHeader, fileSize)`: the file size
        must be positive and the header must start at the chunk count;
        otherwise nothing changes. */
    method AddNewChunkWithHeader(chunkHeader: ChunkHeader, fileSize: int32) returns (r: Result<Chunk, ManagerError>)
      requires Valid()
      modifies this, chunks
      ensures Valid()
      ensures cachingEnabled == old(cachingEnabled)
      ensures fileSize <= 0 ==> r == Err(InvalidArgument(Ensure.Positive(fileSize, "fileSize").error))
      ensures r.Ok? <==> fileSize > 0 && chunkHeader.chunkStartNumber == old(chunksCount)
      ensures fileSize > 0 && chunkHeader.chunkStartNumber != old(chunksCount) ==>
        r == Err(UnexpectedStartNumber(chunkHeader.chunkStartNumber, chunkHeader.chunkEndNumber, old(chunksCount)))
      ensures r.Err? ==> unchanged(this, chunks)
      ensures r.Ok? ==> (
        && fresh(r.value)
        && r.value.start == chunkHeader.chunkStartNumber && r.value.end == chunkHeader.chunkEndNumber
        && !r.value.isReadOnly && r.value.chunkSize == chunkHeader.chunkSize
        && chunks[..] == Overwrite(old(chunks[..]), r.value.start, r.value.end, r.value)
        && chunksCount == Max(old(chunksCount), r.value.end + 1)
        && backgroundPassesRemaining == old(backgroundPassesRemaining) + (if cachingEnabled then 1 else 0))
    {
      var guard := Ensure.Positive(fileSize, "fileSize");
      if guard.Fail? {
        return Err(InvalidArgument(guard.error));
      }
      if chunkHeader.chunkStartNumber != chunksCount {
        return Err(UnexpectedStartNumber(chunkHeader.chunkStartNumber, chunkHeader.chunkEndNumber, chunksCount));
      }
      var chunk := new Chunk(chunkHeader.chunkStartNumber, chunkHeader.chunkEndNumber, false, chunkHeader.chunkSize, 0, 0);
      AddChunk(chunk);
      return Ok(chunk);
    }

    /** `ReplaceChunksWith`: the check fails, and nothing changes, when an
        occupant of the new chunk's range reaches outside it; otherwise the
        new chunk occupies its whole range and every chunk it displaced is
        marked for deletion. */
    method ReplaceChunksWith(newChunk: Chunk) returns (replaced: bool)
      requires Valid()
      modifies chunks, Occupants(chunks[..], newChunk.start, newChunk.end)
      ensures Valid()
      ensures replaced == ReplaceCheck(old(chunks[..]), newChunk.start, newChunk.start, newChunk.end)
      ensures !replaced ==> chunks[..] == old(chunks[..]) && unchanged(Occupants(old(chunks[..]), newChunk.start, newChunk.end))
      ensures replaced ==> chunks[..] == Overwrite(old(chunks[..]), newChunk.start, newChunk.end, newChunk)
      ensures replaced ==> forall c :: c in Occupants(old(chunks[..]), newChunk.start, newChunk.end) ==> c.markedForDeletion
      ensures forall c :: c in Occupants(old(chunks[..]), newChunk.start, newChunk.end) ==> c.cached == old(c.cached)
    {
      replaced := CheckReplacement(newChunk.start, newChunk.end);
      if !replaced {
        return;
      }
      SwapIn(newChunk);
    }

    /** The check loop of `ReplaceChunksWith`. */
    method CheckReplacement(chunkStartNumber: ChunkNumber, chunkEndNumber: ChunkNumber) returns (fits: bool)
      requires Valid()
      ensures fits == ReplaceCheck(chunks[..], chunkStartNumber, chunkStartNumber, chunkEndNumber)
    {
      var i := chunkStartNumber;
      while i <= chunkEndNumber
        invariant chunkStartNumber <= i
        invariant ReplaceCheck(chunks[..], i, chunkStartNumber, chunkEndNumber) ==
          ReplaceCheck(chunks[..], chunkStartNumber, chunkStartNumber, chunkEndNumber)
        decreases chunkEndNumber - i
      {
        var chunk := chunks[i];
        if chunk != null {
          if chunk.start < chunkStartNumber || chunk.end > chunkEndNumber {
            return false;
          }
          i := chunk.end + 1;
        } else {
          i := i + 1;
        }
      }
      return true;
    }

    /** The exchange loop of `ReplaceChunksWith`: each displaced chunk is
        marked for deletion once the scan has moved past it. */
    method SwapIn(newChunk: Chunk)
      requires Valid()
      modifies chunks, Occupants(chunks[..], newChunk.start, newChunk.end)
      ensures Valid()
      ensures chunks[..] == Overwrite(old(chunks[..]), newChunk.start, newChunk.end, newChunk)
      ensures forall c :: c in Occupants(old(chunks[..]), newChunk.start, newChunk.end) ==> c.markedForDeletion && c.cached == old(c.cached)
    {
      var chunkStartNumber := newChunk.start;
      var chunkEndNumber := newChunk.end;
      ghost var before := chunks[..];
      ghost var displaced := Occupants(before, chunkStartNumber, chunkEndNumber);
      var previousRemovedChunk: Chunk? := null;
      var i := chunkStartNumber;
      while i <= chunkEndNumber
        invariant chunkStartNumber <= i && (i <= chunkEndNumber + 1 || i == chunkStartNumber)
        invariant forall j :: 0 <= j < chunks.Length ==> chunks[j] == if chunkStartNumber <= j < i then newChunk else before[j]
        invariant previousRemovedChunk == if i == chunkStartNumber then null else before[i - 1]
        invariant forall j :: chunkStartNumber <= j < i && before[j] != null && before[j] != previousRemovedChunk ==>
          before[j].markedForDeletion
        invariant forall c :: c in displaced ==> c.cached == old(c.cached)
      {
        var oldChunk := chunks[i];
        chunks[i] := newChunk;
        if previousRemovedChunk != oldChunk {
          if previousRemovedChunk != null {
            previousRemovedChunk.MarkForDeletion();
          }
          previousRemovedChunk := oldChunk;
        }
        i := i + 1;
      }
      if previousRemovedChunk != null {
        previousRemovedChunk.MarkForDeletion();
      }
      forall c | c in displaced
        ensures c.markedForDeletion
      {
        var j :| 0 <= j < |before| && chunkStartNumber <= j <= chunkEndNumber && before[j] != null && before[j] == c;
      }
      assert chunks[..] == Overwrite(before, chunkStartNumber, chunkEndNumber, newChunk);
      OverwriteRegistered(before, chunkStartNumber, chunkEndNumber, newChunk);
    }

    /** `RemoveChunks`: the slots `[chunkStartNumber..chunkEndNumber]` are
        emptied, and every chunk that occupied one is marked for deletion. */
    method RemoveChunks(chunkStartNumber: int, chunkEndNumber: int)
      requires Valid() && 0 <= chunkStartNumber && chunkEndNumber < MaxChunksCount
      modifies chunks, Occupants(chunks[..], chunkStartNumber, chunkEndNumber)
      ensures Valid()
      ensures chunks[..] == Overwrite(old(chunks[..]), chunkStartNumber, chunkEndNumber, null)
      ensures forall c :: c in Occupants(old(chunks[..]), chunkStartNumber, chunkEndNumber) ==> c.markedForDeletion && c.cached == old(c.cached)
    {
      ghost var before := chunks[..];
      ghost var removed := Occupants(before, chunkStartNumber, chunkEndNumber);
      var lastRemovedChunk: Chunk? := null;
      var i := chunkStartNumber;
      while i <= chunkEndNumber
        invariant chunkStartNumber <= i && (i <= chunkEndNumber + 1 || i == chunkStartNumber)
        invariant chunks[..] == Overwrite(before, chunkStartNumber, i - 1, null)
        invariant lastRemovedChunk == if i == chunkStartNumber then null else before[i - 1]
        invariant forall j :: chunkStartNumber <= j < i && before[j] != null ==> before[j].markedForDeletion
        invariant forall c :: c in removed ==> c.cached == old(c.cached)
      {
        var oldChunk := chunks[i];
        chunks[i] := null;
        if oldChunk != null && lastRemovedChunk != oldChunk {
          oldChunk.MarkForDeletion();
        }
        lastRemovedChunk := oldChunk;
        i := i + 1;
      }
      OverwriteRegistered(before, chunkStartNumber, chunkEndNumber, null);
    }

    /** `SwitchChunk`, once the completed chunk's file is in place: an
        in-memory database installs the chunk itself, any other the chunk
        `reopened` from its moved file. A chunk the check refuses is marked
        for deletion. After a raw replication the count is cut back to the
        new chunk's end, the slots after the switched chunk are emptied and
        their chunks marked for deletion, and a chunk still found at the new
        count is an error. */
    method SwitchChunk(chunk: Chunk, reopened: Chunk, removeChunksWithGreaterNumbers: bool) returns (r: Result<Chunk, ManagerError>)
      requires Valid()
      modifies this, chunks, chunk, reopened, Occupants(chunks[..], 0, MaxChunksCount - 1)
      ensures Valid()
      ensures cachingEnabled == old(cachingEnabled)
      ensures forall c :: c in Occupants(old(chunks[..]), 0, MaxChunksCount - 1) + {chunk, reopened} ==> c.cached == old(c.cached)
      ensures !chunk.isReadOnly ==>
        r == Err(ChunkNotCompleted) && unchanged(this, chunks, chunk, reopened) && unchanged(Occupants(old(chunks[..]), 0, MaxChunksCount - 1))
      ensures chunk.isReadOnly ==>
        var newChunk := if config.inMemDb then chunk else reopened;
        var replaced := ReplaceCheck(old(chunks[..]), newChunk.start, newChunk.start, newChunk.end);
        var switched := if replaced then Overwrite(old(chunks[..]), newChunk.start, newChunk.end, newChunk) else old(chunks[..]);
        && (!replaced ==> newChunk.markedForDeletion)
        && (replaced ==> forall c :: c in Occupants(old(chunks[..]), newChunk.start, newChunk.end) ==> c.markedForDeletion)
        && (!removeChunksWithGreaterNumbers ==>
          && chunks[..] == switched && chunksCount == old(chunksCount) && r == Ok(newChunk)
          && backgroundPassesRemaining == old(backgroundPassesRemaining) + (if cachingEnabled then 1 else 0))
        && (removeChunksWithGreaterNumbers ==>
          && chunksCount == newChunk.end + 1
          && chunks[..] == Overwrite(switched, chunk.end + 1, old(chunksCount) - 1, null)
          && (forall c :: c in Occupants(switched, chunk.end + 1, old(chunksCount) - 1) ==> c.markedForDeletion)
          && r == (if chunksCount == MaxChunksCount then Err(IndexOutOfRange)
                   else if chunks[chunksCount] != null then Err(ExcessiveChunk(chunksCount))
                   else Ok(newChunk))
          && backgroundPassesRemaining == old(backgroundPassesRemaining) + (if r.Ok? && cachingEnabled then 1 else 0))
    {
      if !chunk.isReadOnly {
        return Err(ChunkNotCompleted);
      }
      var newChunk := if config.inMemDb then chunk else reopened;
      OccupantsWithin(chunks[..], newChunk.start, newChunk.end, 0, MaxChunksCount - 1);
      if removeChunksWithGreaterNumbers {
        r := SwitchCuttingTail(newChunk, chunk.end + 1);
      } else {
        r := SwitchKeepingTail(newChunk);
      }
    }

    /** `SwitchChunk` without raw replication: the new chunk is installed
        and a cache pass requested. */
    method SwitchKeepingTail(newChunk: Chunk) returns (r: Result<Chunk, ManagerError>)
      requires Valid()
      modifies this, chunks, newChunk, Occupants(chunks[..], newChunk.start, newChunk.end)
      ensures Valid()
      ensures cachingEnabled == old(cachingEnabled)
      ensures forall c :: c in Occupants(old(chunks[..]), newChunk.start, newChunk.end) + {newChunk} ==> c.cached == old(c.cached)
      ensures var replaced := ReplaceCheck(old(chunks[..]), newChunk.start, newChunk.start, newChunk.end);
        && (!replaced ==> newChunk.markedForDeletion)
        && (replaced ==> forall c :: c in Occupants(old(chunks[..]), newChunk.start, newChunk.end) ==> c.markedForDeletion)
        && chunks[..] == (if replaced then Overwrite(old(chunks[..]), newChunk.start, newChunk.end, newChunk) else old(chunks[..]))
      ensures chunksCount == old(chunksCount) && r == Ok(newChunk)
      ensures backgroundPassesRemaining == old(backgroundPassesRemaining) + (if cachingEnabled then 1 else 0)
    {
      var replaced := Install(newChunk);
      TriggerBackgroundCaching();
      return Ok(newChunk);
    }

    /** `SwitchChunk` after a raw replication: the new chunk is installed,
        then the tail from `removeFrom` is cut. */
    method SwitchCuttingTail(newChunk: Chunk, removeFrom: int) returns (r: Result<Chunk, ManagerError>)
      requires Valid() && 0 <= removeFrom
      modifies this, chunks, newChunk, Occupants(chunks[..], 0, MaxChunksCount - 1)
      ensures Valid()
      ensures cachingEnabled == old(cachingEnabled)
      ensures forall c :: c in Occupants(old(chunks[..]), 0, MaxChunksCount - 1) + {newChunk} ==> c.cached == old(c.cached)
      ensures var replaced := ReplaceCheck(old(chunks[..]), newChunk.start, newChunk.start, newChunk.end);
        var switched := if replaced then Overwrite(old(chunks[..]), newChunk.start, newChunk.end, newChunk) else old(chunks[..]);
        && (!replaced ==> newChunk.markedForDeletion)
        && (replaced ==> forall c :: c in Occupants(old(chunks[..]), newChunk.start, newChunk.end) ==> c.markedForDeletion)
        && chunks[..] == Overwrite(switched, removeFrom, old(chunksCount) - 1, null)
        && (forall c :: c in Occupants(switched, removeFrom, old(chunksCount) - 1) ==> c.markedForDeletion)
      ensures chunksCount == newChunk.end + 1
      ensures r == if chunksCount == MaxChunksCount then Err(IndexOutOfRange)
                   else if chunks[chunksCount] != null then Err(ExcessiveChunk(chunksCount))
                   else Ok(newChunk)
      ensures backgroundPassesRemaining == old(backgroundPassesRemaining) + (if r.Ok? && cachingEnabled then 1 else 0)
    {
      ghost var before := chunks[..];
      ghost var registry := Occupants(before, 0, MaxChunksCount - 1);
      OccupantsWithin(before, newChunk.start, newChunk.end, 0, MaxChunksCount - 1);
      var replaced := Install(newChunk);
      ghost var switched := chunks[..];
      ghost var displaced := Occupants(before, newChunk.start, newChunk.end);
      ghost var removed := Occupants(switched, removeFrom, chunksCount - 1);
      if replaced {
        OccupantsAfterOverwrite(before, newChunk.start, newChunk.end, newChunk, removeFrom, chunksCount - 1);
      } else {
        OccupantsWithin(before, removeFrom, chunksCount - 1, 0, MaxChunksCount - 1);
      }
      var cut := CutBack(newChunk.end + 1, removeFrom, registry + {newChunk});
      r := if cut.Fail? then Err(cut.error) else Ok(newChunk);
    }

    /** The part of `SwitchChunk` in `ReplaceChunksWith`: a refused chunk is
        marked for deletion. */
    method Install(newChunk: Chunk) returns (replaced: bool)
      requires Valid()
      modifies chunks, newChunk, Occupants(chunks[..], newChunk.start, newChunk.end)
      ensures Valid()
      ensures replaced == ReplaceCheck(old(chunks[..]), newChunk.start, newChunk.start, newChunk.end)
      ensures chunks[..] == if replaced then Overwrite(old(chunks[..]), newChunk.start, newChunk.end, newChunk) else old(chunks[..])
      ensures !replaced ==> newChunk.markedForDeletion
      ensures replaced ==> forall c :: c in Occupants(old(chunks[..]), newChunk.start, newChunk.end) ==> c.markedForDeletion
      ensures forall c :: c in Occupants(old(chunks[..]), newChunk.start, newChunk.end) + {newChunk} ==> c.cached == old(c.cached)
    {
      replaced := ReplaceChunksWith(newChunk);
      if !replaced {
        newChunk.MarkForDeletion();
      }
    }

    /** The raw replication part of `SwitchChunk`: the count becomes
        `newCount`, the slots from `removeFrom` up to the old count are
        emptied, and slot `newCount` must then be empty before a cache pass
        is requested. */
    method CutBack(newCount: int, removeFrom: int, ghost keep: set<Chunk>) returns (r: Outcome<ManagerError>)
      requires Valid() && 0 < newCount <= MaxChunksCount && 0 <= removeFrom
      modifies this, chunks, Occupants(chunks[..], removeFrom, chunksCount - 1)
      ensures Valid()
      ensures chunksCount == newCount && cachingEnabled == old(cachingEnabled)
      ensures backgroundPassesRemaining == old(backgroundPassesRemaining) + (if r.Pass? && cachingEnabled then 1 else 0)
      ensures chunks[..] == Overwrite(old(chunks[..]), removeFrom, old(chunksCount) - 1, null)
      ensures forall c :: c in Occupants(old(chunks[..]), removeFrom, old(chunksCount) - 1) ==> c.markedForDeletion
      ensures forall c :: c in keep ==> c.cached == old(c.cached) && (old(c.markedForDeletion) ==> c.markedForDeletion)
      ensures r == if newCount == MaxChunksCount then Fail(IndexOutOfRange)
                   else if chunks[newCount] != null then Fail(ExcessiveChunk(newCount))
                   else Pass
    {
      var oldChunksCount := chunksCount;
      chunksCount := newCount;
      RemoveChunks(removeFrom, oldChunksCount - 1);
      if chunksCount == MaxChunksCount {
        return Fail(IndexOutOfRange);
      }
      if chunks[chunksCount] != null {
        return Fail(ExcessiveChunk(chunksCount));
      }
      TriggerBackgroundCaching();
      return Pass;
    }

    /** The first loop of `CacheUncacheReadOnlyChunks`: scanning back from
        the last chunk, it adds up cache sizes for as long as the budget
        `MaxChunksCacheSize` allows. The chunks from the boundary to the tail
        fit the budget, and the chunk just below the boundary would not. */
    method ComputeCacheBoundary() returns (r: Result<int, ManagerError>)
      requires Valid()
      ensures r.Ok? ==> (
        && 0 <= r.value <= chunksCount
        && ChainDown(chunks[..], r.value, chunksCount)
        && (r.value == chunksCount ||
            ChainCost(chunks[..], r.value, chunksCount, headerSize, footerSize) <= config.maxChunksCacheSize))
      ensures r.Ok? && r.value > 0 ==> (
        && chunks[r.value - 1] != null
        && ChainCost(chunks[..], r.value, chunksCount, headerSize, footerSize) + CacheSize(chunks[r.value - 1], headerSize, footerSize) >
           config.maxChunksCacheSize)
      ensures r.Err? ==> (
        && r.error == NullReference
        && exists b :: 0 < b <= chunksCount && ChainDown(chunks[..], b, chunksCount) && chunks[b - 1] == null)
    {
      var totalSize := 0;
      var lastChunkToCache := chunksCount;
      var chunkNum := chunksCount - 1;
      while chunkNum >= 0
        invariant chunkNum == lastChunkToCache - 1
        invariant 0 <= lastChunkToCache <= chunksCount
        invariant ChainDown(chunks[..], lastChunkToCache, chunksCount)
        invariant totalSize == ChainCost(chunks[..], lastChunkToCache, chunksCount, headerSize, footerSize)
        invariant lastChunkToCache == chunksCount || totalSize <= config.maxChunksCacheSize
        decreases chunkNum
      {
        var chunk := chunks[chunkNum];
        if chunk == null {
          return Err(NullReference);
        }
        var chunkSize := CacheSize(chunk, headerSize, footerSize);
        if totalSize + chunkSize > config.maxChunksCacheSize {
          return Ok(lastChunkToCache);
        }
        ChainExtends(chunks[..], lastChunkToCache, chunksCount, headerSize, footerSize);
        totalSize := totalSize + chunkSize;
        lastChunkToCache := chunk.start;
        chunkNum := chunk.start - 1;
      }
      return Ok(lastChunkToCache);
    }

    /** The second loop: scanning back from just below the boundary, every
        completed chunk met is dropped from memory. */
    method UncacheBelow(boundary: int) returns (r: Outcome<ManagerError>)
      requires Valid() && 0 <= boundary <= chunksCount
      modifies Occupants(chunks[..], 0, MaxChunksCount - 1)
      ensures r.Pass? <==> ChainDown(chunks[..], 0, boundary)
      ensures r.Fail? ==> r.error == NullReference
      ensures forall c :: c in Occupants(chunks[..], 0, MaxChunksCount - 1) ==> c.markedForDeletion == old(c.markedForDeletion)
      ensures r.Pass? ==> forall c :: c in Occupants(chunks[..], 0, MaxChunksCount - 1) ==>
        c.cached == if c.isReadOnly && c in ChainChunks(chunks[..], 0, boundary) then false else old(c.cached)
    {
      ghost var slots := chunks[..];
      ghost var registry := Occupants(slots, 0, MaxChunksCount - 1);
      ghost var done: set<Chunk> := {};
      var chunkNum := boundary - 1;
      while chunkNum >= 0
        invariant -1 <= chunkNum < boundary
        invariant ChainDown(slots, 0, boundary) <==> ChainDown(slots, 0, chunkNum + 1)
        invariant ChainDown(slots, 0, chunkNum + 1) ==> ChainChunks(slots, 0, boundary) == done + ChainChunks(slots, 0, chunkNum + 1)
        invariant forall c :: c in registry ==> c.markedForDeletion == old(c.markedForDeletion)
        invariant forall c :: c in registry ==> c.cached == if c.isReadOnly && c in done then false else old(c.cached)
        decreases chunkNum
      {
        var chunk := chunks[chunkNum];
        if chunk == null {
          return Fail(NullReference);
        }
        if chunk.isReadOnly {
          chunk.UnCacheFromMemory();
        }
        done := done + {chunk};
        chunkNum := chunk.start - 1;
      }
      return Pass;
    }

    /** The third loop: scanning forward from the boundary to the count,
        every completed chunk met is loaded into memory. */
    method CacheFrom(boundary: int) returns (r: Outcome<ManagerError>)
      requires Valid() && 0 <= boundary <= chunksCount
      modifies Occupants(chunks[..], 0, MaxChunksCount - 1)
      ensures r.Pass? <==> ChainUp(chunks[..], boundary, chunksCount)
      ensures r.Fail? ==> r.error == NullReference
      ensures forall c :: c in Occupants(chunks[..], 0, MaxChunksCount - 1) ==> c.markedForDeletion == old(c.markedForDeletion)
      ensures r.Pass? ==> forall c :: c in Occupants(chunks[..], 0, MaxChunksCount - 1) ==>
        c.cached == if c.isReadOnly && c in ChainUpChunks(chunks[..], boundary, chunksCount) then true else old(c.cached)
    {
      ghost var slots := chunks[..];
      ghost var registry := Occupants(slots, 0, MaxChunksCount - 1);
      ghost var done: set<Chunk> := {};
      var chunkNum := boundary;
      while chunkNum < chunksCount
        invariant boundary <= chunkNum
        invariant ChainUp(slots, boundary, chunksCount) <==> ChainUp(slots, chunkNum, chunksCount)
        invariant ChainUp(slots, chunkNum, chunksCount) ==>
          ChainUpChunks(slots, boundary, chunksCount) == done + ChainUpChunks(slots, chunkNum, chunksCount)
        invariant forall c :: c in registry ==> c.markedForDeletion == old(c.markedForDeletion)
        invariant forall c :: c in registry ==> c.cached == if c.isReadOnly && c in done then true else old(c.cached)
        decreases chunksCount - chunkNum
      {
        var chunk := chunks[chunkNum];
        if chunk == null {
          return Fail(NullReference);
        }
        if chunk.isReadOnly {
          chunk.CacheInMemory();
        }
        done := done + {chunk};
        chunkNum := chunk.end + 1;
      }
      return Pass;
    }

    /** `CacheUncacheReadOnlyChunks`, returning the boundary it chose: the
        completed chunks the forward scan from the boundary meets are in
        memory, those the backward scan below it meets and the forward scan
        does not are out of it, and every other chunk keeps its state. An
        empty slot met by any scan throws. */
    method CacheUncacheReadOnlyChunks() returns (r: Result<int, ManagerError>)
      requires Valid()
      modifies Occupants(chunks[..], 0, MaxChunksCount - 1)
      ensures forall c :: c in Occupants(chunks[..], 0, MaxChunksCount - 1) ==> c.markedForDeletion == old(c.markedForDeletion)
      ensures r.Err? ==> r.error == NullReference
      ensures r.Ok? ==> (
        var b := r.value;
        && 0 <= b <= chunksCount
        && ChainDown(chunks[..], b, chunksCount)
        && (b == chunksCount || ChainCost(chunks[..], b, chunksCount, headerSize, footerSize) <= config.maxChunksCacheSize)
        && (b > 0 ==>
          && chunks[b - 1] != null
          && ChainCost(chunks[..], b, chunksCount, headerSize, footerSize) + CacheSize(chunks[b - 1], headerSize, footerSize) >
             config.maxChunksCacheSize)
        && ChainDown(chunks[..], 0, b) && ChainUp(chunks[..], b, chunksCount)
        && forall c :: c in Occupants(chunks[..], 0, MaxChunksCount - 1) ==>
          c.cached == if c.isReadOnly && c in ChainUpChunks(chunks[..], b, chunksCount) then true
                      else if c.isReadOnly && c in ChainChunks(chunks[..], 0, b) then false
                      else old(c.cached))
    {
      r := ComputeCacheBoundary();
      if r.Err? {
        return;
      }
      var lastChunkToCache := r.value;
      var uncached := UncacheBelow(lastChunkToCache);
      if uncached.Fail? {
        return Err(uncached.error);
      }
      var cached := CacheFrom(lastChunkToCache);
      if cached.Fail? {
        return Err(cached.error);
      }
    }
  }
}
