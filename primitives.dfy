/** Fixed-width integer types of the .NET runtime and the GUID value type. */
module Primitives {
  const Int32Min: int := -0x8000_0000
  const Int32Max: int := 0x7FFF_FFFF
  const Int64Min: int := -0x8000_0000_0000_0000
  const Int64Max: int := 0x7FFF_FFFF_FFFF_FFFF
  const UInt32Max: int := 0xFFFF_FFFF
  const GuidBound: int := 0x1_0000_0000_0000_0000_0000_0000_0000_0000

  /** C# `int`. */
  type int32 = x: int | Int32Min <= x <= Int32Max
  /** C# `long`. */
  type int64 = x: int | Int64Min <= x <= Int64Max
  /** C# `uint`. */
  type uint32 = x: int | 0 <= x <= UInt32Max

  /** A GUID, identified with the 128-bit number its canonical hexadecimal text spells. */
  type Guid = x: int | 0 <= x < GuidBound

  /** `Guid.Empty`. */
  const EmptyGuid: Guid := 0

  /** An unchecked conversion to `int`: keeps the low 32 bits, read as two's complement. */
  function WrapToInt32(x: int): (r: int32)
    ensures Int32Min <= x <= Int32Max ==> r == x
    ensures (r - x) % 0x1_0000_0000 == 0
  {
    var m := (x - Int32Min) % 0x1_0000_0000;
    m + Int32Min
  }

  /** Unchecked `long` arithmetic: keeps the low 64 bits, read as two's complement. */
  function WrapToInt64(x: int): (r: int64)
    ensures Int64Min <= x <= Int64Max ==> r == x
    ensures (r - x) % 0x1_0000_0000_0000_0000 == 0
  {
    var m := (x - Int64Min) % 0x1_0000_0000_0000_0000;
    m + Int64Min
  }
}
