/** The epoch record: an immutable descriptor of a leadership epoch, ordered
    by its epoch number alone. */
module EpochRecords {
  import opened Wrappers
  import opened Primitives
  import opened Text

  /** `DateTime`, by its tick count. */
  type DateTime = int64

  /** The six readonly fields, in the constructor's order. */
  datatype EpochRecord = EpochRecord(
    epochPosition: int64,
    epochNumber: int32,
    epochId: Guid,
    prevEpochPosition: int64,
    timeStamp: DateTime,
    leaderInstanceId: Guid)

  /** The serialisation DTO, whose properties mirror the record's fields. */
  datatype EpochRecordDto = EpochRecordDto(
    epochPosition: int64,
    epochNumber: int32,
    epochId: Guid,
    prevEpochPosition: int64,
    timeStamp: DateTime,
    leaderInstanceId: Guid)

  /** `new EpochRecordDto(rec)`. */
  function ToDto(rec: EpochRecord): (dto: EpochRecordDto)
    ensures dto.epochNumber == rec.epochNumber && dto.epochId == rec.epochId
    ensures dto.epochPosition == rec.epochPosition && dto.prevEpochPosition == rec.prevEpochPosition
    ensures dto.timeStamp == rec.timeStamp && dto.leaderInstanceId == rec.leaderInstanceId
  {
    EpochRecordDto(rec.epochPosition, rec.epochNumber, rec.epochId, rec.prevEpochPosition,
      rec.timeStamp, rec.leaderInstanceId)
  }

  /** `new EpochRecord(dto)`: copying a DTO into a record and back loses nothing. */
  function FromDto(dto: EpochRecordDto): (rec: EpochRecord)
    ensures ToDto(rec) == dto
  {
    EpochRecord(dto.epochPosition, dto.epochNumber, dto.epochId, dto.prevEpochPosition,
      dto.timeStamp, dto.leaderInstanceId)
  }

  /** The other direction: copying a record into a DTO and back loses nothing. */
  lemma FromDtoToDto(rec: EpochRecord)
    ensures FromDto(ToDto(rec)) == rec
  {
  }

  /** What `CompareTo(object)` may be handed. */
  datatype Comparand = NullObject | EpochObject(other: EpochRecord) | OtherObject

  datatype CompareError = NotAnEpochRecord(message: string)

  /** `Int32.CompareTo`: -1, 0 or 1. */
  function CompareInt(a: int, b: int): int {
    if a < b then -1 else if a > b then 1 else 0
  }

  /** `EpochRecord.CompareTo`: null compares below every record, another kind
      of object is refused, and two records compare as their epoch numbers do. */
  function CompareTo(rec: EpochRecord, obj: Comparand): (r: Result<int, CompareError>)
    ensures obj.NullObject? ==> r == Ok(1)
    ensures obj.OtherObject? ==> r == Err(NotAnEpochRecord("Object is not a Epoch Record"))
    ensures obj.EpochObject? ==> r.Ok? && -1 <= r.value <= 1
    ensures obj.EpochObject? ==> (r.value < 0 <==> rec.epochNumber < obj.other.epochNumber)
    ensures obj.EpochObject? ==> (r.value == 0 <==> rec.epochNumber == obj.other.epochNumber)
  {
    match obj
    case NullObject => Ok(1)
    case OtherObject => Err(NotAnEpochRecord("Object is not a Epoch Record"))
    case EpochObject(other) => Ok(CompareInt(rec.epochNumber, other.epochNumber))
  }

  /** The comparison between records, where it is defined. */
  function Compare(a: EpochRecord, b: EpochRecord): int {
    CompareTo(a, EpochObject(b)).value
  }

  /** The comparison is a total preorder that position, id, time stamp and
      leader do not affect: reflexive, antisymmetric in sign, transitive. */
  lemma CompareIsTotalPreorder(a: EpochRecord, b: EpochRecord, c: EpochRecord)
    ensures Compare(a, a) == 0
    ensures Compare(a, b) == -Compare(b, a)
    ensures Compare(a, b) <= 0 && Compare(b, c) <= 0 ==> Compare(a, c) <= 0
    ensures Compare(a, b) <= 0 || Compare(b, a) <= 0
    ensures a.epochNumber == b.epochNumber ==> Compare(a, c) == Compare(b, c)
  {
  }

  /** The `{0:B}` rendering of a GUID: 32 lower-case hexadecimal digits in
      groups of 8-4-4-4-12, separated by hyphens, between braces. */
  function GuidToStringB(g: Guid): (s: string)
    ensures |s| == 38 && s[0] == '{' && s[37] == '}'
    ensures s[9] == '-' && s[14] == '-' && s[19] == '-' && s[24] == '-'
    ensures AllHex(s[1..9]) && AllHex(s[10..14]) && AllHex(s[15..19]) && AllHex(s[20..24]) && AllHex(s[25..37])
  {
    var a, b, c, d, e := Hex(GuidGroup1(g), 8), Hex(GuidGroup2(g), 4), Hex(GuidGroup3(g), 4), Hex(GuidGroup4(g), 4), Hex(GuidGroup5(g), 12);
    GuidTextParts(a, b, c, d, e);
    GuidText(a, b, c, d, e)
  }

  /** Five digit groups, hyphenated and braced. */
  function GuidText(a: string, b: string, c: string, d: string, e: string): string {
    "{" + a + "-" + b + "-" + c + "-" + d + "-" + e + "}"
  }

  lemma GuidTextParts(a: string, b: string, c: string, d: string, e: string)
    requires |a| == 8 && |b| == 4 && |c| == 4 && |d| == 4 && |e| == 12
    ensures var s := GuidText(a, b, c, d, e);
      && |s| == 38 && s[0] == '{' && s[37] == '}'
      && s[9] == '-' && s[14] == '-' && s[19] == '-' && s[24] == '-'
      && s[1..9] == a && s[10..14] == b && s[15..19] == c && s[20..24] == d && s[25..37] == e
  {
    var s := GuidText(a, b, c, d, e);
    assert |s| == 38;
    assert forall i :: 0 <= i < 8 ==> s[1 + i] == a[i];
    assert forall i :: 0 <= i < 4 ==> s[10 + i] == b[i];
    assert forall i :: 0 <= i < 4 ==> s[15 + i] == c[i];
    assert forall i :: 0 <= i < 4 ==> s[20 + i] == d[i];
    assert forall i :: 0 <= i < 12 ==> s[25 + i] == e[i];
    assert s[1..9] == a;
    assert s[10..14] == b;
    assert s[15..19] == c;
    assert s[20..24] == d;
    assert s[25..37] == e;
  }

  /** The five digit groups of a GUID, from the most significant. */
  function GuidGroup1(g: Guid): nat { g / 0x1_0000_0000_0000 / 0x1_0000 / 0x1_0000 / 0x1_0000 }
  function GuidGroup2(g: Guid): nat { g / 0x1_0000_0000_0000 / 0x1_0000 / 0x1_0000 % 0x1_0000 }
  function GuidGroup3(g: Guid): nat { g / 0x1_0000_0000_0000 / 0x1_0000 % 0x1_0000 }
  function GuidGroup4(g: Guid): nat { g / 0x1_0000_0000_0000 % 0x1_0000 }
  function GuidGroup5(g: Guid): nat { g % 0x1_0000_0000_0000 }

  /** The shape of a `B`-format GUID text. */
  predicate IsGuidBText(s: string) {
    && |s| == 38 && s[0] == '{' && s[9] == '-' && s[14] == '-' && s[19] == '-' && s[24] == '-' && s[37] == '}'
    && AllHex(s[1..9]) && AllHex(s[10..14]) && AllHex(s[15..19]) && AllHex(s[20..24]) && AllHex(s[25..37])
  }

  /** The GUID whose five digit groups have the given values. */
  function GuidOfGroups(a: nat, b: nat, c: nat, d: nat, e: nat): int {
    (((a * 0x1_0000 + b) * 0x1_0000 + c) * 0x1_0000 + d) * 0x1_0000_0000_0000 + e
  }

  /** A reader of `B`-format GUID texts. */
  function ParseGuidB(s: string): Option<Guid> {
    if IsGuidBText(s) then
      Pow16Values();
      HexValueBound(s[1..9]);
      HexValueBound(s[10..14]);
      HexValueBound(s[15..19]);
      HexValueBound(s[20..24]);
      HexValueBound(s[25..37]);
      Some(GuidOfGroups(HexValue(s[1..9]), HexValue(s[10..14]), HexValue(s[15..19]), HexValue(s[20..24]), HexValue(s[25..37])))
    else None
  }

  /** The groups fit their widths and put the GUID back together. */
  lemma GuidGroupsRecompose(g: Guid)
    ensures GuidGroup1(g) < 0x1_0000_0000 && GuidGroup2(g) < 0x1_0000 && GuidGroup3(g) < 0x1_0000
    ensures GuidGroup4(g) < 0x1_0000 && GuidGroup5(g) < 0x1_0000_0000_0000
    ensures GuidOfGroups(GuidGroup1(g), GuidGroup2(g), GuidGroup3(g), GuidGroup4(g), GuidGroup5(g)) == g
  {
    var q1 := g / 0x1_0000_0000_0000;
    var q2 := q1 / 0x1_0000;
    var q3 := q2 / 0x1_0000;
    assert q1 < 0x1_0000_0000_0000_0000_0000 && q2 < 0x1_0000_0000_0000_0000 && q3 < 0x1_0000_0000_0000;
    assert GuidGroup1(g) * 0x1_0000 + GuidGroup2(g) == q3;
    assert q3 * 0x1_0000 + GuidGroup3(g) == q2;
    assert q2 * 0x1_0000 + GuidGroup4(g) == q1;
  }

  /** The `B` rendering can be read back to the GUID it renders. */
  lemma GuidToStringBReadBack(g: Guid)
    ensures ParseGuidB(GuidToStringB(g)) == Some(g)
  {
    var a, b, c, d, e := Hex(GuidGroup1(g), 8), Hex(GuidGroup2(g), 4), Hex(GuidGroup3(g), 4), Hex(GuidGroup4(g), 4), Hex(GuidGroup5(g), 12);
    var s := GuidToStringB(g);
    assert s == GuidText(a, b, c, d, e);
    GuidTextParts(a, b, c, d, e);
    assert IsGuidBText(s);
    GuidGroupsRecompose(g);
    Pow16Values();
    HexValueOfHex(GuidGroup1(g), 8);
    HexValueOfHex(GuidGroup2(g), 4);
    HexValueOfHex(GuidGroup3(g), 4);
    HexValueOfHex(GuidGroup4(g), 4);
    HexValueOfHex(GuidGroup5(g), 12);
    assert HexValue(s[1..9]) == GuidGroup1(g) && HexValue(s[10..14]) == GuidGroup2(g) && HexValue(s[15..19]) == GuidGroup3(g);
    assert HexValue(s[20..24]) == GuidGroup4(g) && HexValue(s[25..37]) == GuidGroup5(g);
  }

  /** Different GUIDs render differently. */
  lemma GuidToStringBInjective(a: Guid, b: Guid)
    ensures GuidToStringB(a) == GuidToStringB(b) ==> a == b
  {
    GuidToStringBReadBack(a);
    GuidToStringBReadBack(b);
  }

  /** `EpochRecordExtensions.AsString`: `"E{number}@{position}:{id}"`, with
      -1, -1 and the empty GUID standing in for a null epoch. */
  function AsString(epoch: Option<EpochRecord>): string {
    var number := if epoch.None? then -1 else epoch.value.epochNumber as int;
    var position := if epoch.None? then -1 else epoch.value.epochPosition as int;
    var id := if epoch.None? then EmptyGuid else epoch.value.epochId;
    "E" + IntToString(number) + "@" + IntToString(position) + ":" + GuidToStringB(id)
  }

  lemma NoSeparatorInNumber(n: int, sep: char)
    requires sep != '-' && !IsDigit(sep)
    ensures sep !in IntToString(n)
  {
    var s := IntToString(n);
    if n < 0 {
      assert s == "-" + NatToString(-n);
      assert AllDigits(s[1..]);
    }
  }

  /** A reader of `AsString` texts: the number between the leading `E` and
      the first `@`, the position between that `@` and the next `:`, and the
      GUID after it. */
  function ParseAsString(s: string): Option<(int64, int64, Guid)> {
    if |s| == 0 || s[0] != 'E' then None
    else
      var parts := SplitFirst(s[1..], '@');
      if |parts| < 2 then None
      else
        var rest := SplitFirst(parts[1], ':');
        if |rest| < 2 then None
        else
          match (ParseInt64(parts[0]), ParseInt64(rest[0]), ParseGuidB(rest[1]))
          case (Ok(number), Ok(position), Some(id)) => Some((number, position, id))
          case _ => None
  }

  /** Reading back a text of the shape `"E{number}@{position}:{rest}"`. */
  lemma ReadBackFields(number: int64, position: int64, rest: string)
    ensures ParseAsString("E" + IntToString(number) + "@" + IntToString(position) + ":" + rest) ==
      if ParseGuidB(rest).Some? then Some((number, position, ParseGuidB(rest).value)) else None
  {
    var n := IntToString(number);
    var p := IntToString(position);
    var tail := p + [':'] + rest;
    var s := "E" + n + "@" + p + ":" + rest;
    assert s[1..] == n + ['@'] + tail;
    NoSeparatorInNumber(number, '@');
    SplitFirstOfJoined(n, '@', tail);
    ParseIntToString(number);
    NoSeparatorInNumber(position, ':');
    SplitFirstOfJoined(p, ':', rest);
    ParseIntToString(position);
  }

  /** The rendering can be read back: the epoch number, position and id
      come out of the text again, -1, -1 and the empty GUID for a null epoch. */
  lemma AsStringReadBack(epoch: Option<EpochRecord>)
    ensures epoch.Some? ==>
      ParseAsString(AsString(epoch)) == Some((epoch.value.epochNumber as int64, epoch.value.epochPosition, epoch.value.epochId))
    ensures epoch.None? ==> ParseAsString(AsString(epoch)) == Some((-1, -1, EmptyGuid))
  {
    var number: int64 := if epoch.None? then -1 else epoch.value.epochNumber as int;
    var position: int64 := if epoch.None? then -1 else epoch.value.epochPosition as int;
    var id := if epoch.None? then EmptyGuid else epoch.value.epochId;
    ReadBackFields(number, position, GuidToStringB(id));
    GuidToStringBReadBack(id);
  }
}
